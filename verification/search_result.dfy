/**
  Search results (src/models/search_result.rs) and their one-line summary.
*/
module SearchResultModel {
  import opened Errors
  import opened Strings
  import opened Validation

  /** Scores and distances are real numbers standing for the source's `f32`. */
  datatype SearchResult = SearchResult(
    id: string,
    filePath: string,
    relativePath: string,
    content: string,
    repositoryUrl: string,
    score: real,
    distance: Option<real>,
    fileSize: nat,
    lastModified: nat)

  /** `SearchResult::new` stores its nine arguments. */
  function NewSearchResult(id: string, filePath: string, relativePath: string, content: string,
                           repositoryUrl: string, score: real, distance: Option<real>,
                           fileSize: nat, lastModified: nat): (r: SearchResult)
    ensures r.id == id && r.filePath == filePath && r.relativePath == relativePath
    ensures r.content == content && r.repositoryUrl == repositoryUrl && r.score == score
    ensures r.distance == distance && r.fileSize == fileSize && r.lastModified == lastModified
  {
    SearchResult(id, filePath, relativePath, content, repositoryUrl, score, distance,
                 fileSize, lastModified)
  }

  /** `SearchResult::format_summary`; `format4` renders the score with four
      decimals. The preview is the content cut as `truncate_text` cuts it,
      so slicing inside a multi-byte character panics here too. The summary
      names the file and the repository and ends with the preview. */
  function FormatSummary(r: SearchResult, max: nat, format4: real -> string): (s: string)
    requires |r.content| <= max || IsCharBoundary(r.content, max)
    ensures Contains(s, r.relativePath) && Contains(s, r.repositoryUrl)
    ensures EndsWith(s, TruncateText(r.content, max) + "\n")
    ensures StartsWith(s, "Score: ")
  {
    var head := "Score: " + format4(r.score) + " | ";
    var tail := " (" + r.repositoryUrl + ")\n" + TruncateText(r.content, max) + "\n";
    ContainsMiddle(head, r.relativePath, tail);
    ContainsMiddle(head + r.relativePath + " (", r.repositoryUrl, ")\n" + TruncateText(r.content, max) + "\n");
    assert head + r.relativePath + tail
        == (head + r.relativePath + " (") + r.repositoryUrl + (")\n" + TruncateText(r.content, max) + "\n");
    head + r.relativePath + tail
  }
}
