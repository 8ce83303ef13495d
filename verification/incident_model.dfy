/**
  Incident records and their builder (src/models/incident.rs).
*/
module IncidentModel {
  import opened Errors

  datatype DatePrecision = Exact | Month | Year | Approximate

  /** `DatePrecision::as_str`. */
  function PrecisionName(p: DatePrecision): string {
    match p
    case Exact => "exact"
    case Month => "month"
    case Year => "year"
    case Approximate => "approximate"
  }

  lemma PrecisionNameInjective(a: DatePrecision, b: DatePrecision)
    ensures PrecisionName(a) == PrecisionName(b) <==> a == b
  {
  }

  /** The stored record. The USD amount is a real number standing for the
      source's `f64`; `extracted_at` (a wall-clock read) is not modelled. */
  datatype Incident = Incident(
    documentId: string,
    title: string,
    date: int,
    datePrecision: string,
    victim: string,
    attackVector: string,
    amountUsd: Option<real>,
    description: string,
    sourceFile: string)

  /** `Incident::new`: the date arrives as a (timestamp, precision) pair. */
  function NewIncident(title: string, date: (int, DatePrecision), victim: string,
                       attackVector: string, amountUsd: Option<real>,
                       description: string, sourceFile: string): (r: Incident)
    ensures r.date == date.0 && r.datePrecision == PrecisionName(date.1)
    ensures r.documentId == ""
    ensures r.title == title && r.victim == victim && r.attackVector == attackVector
    ensures r.amountUsd == amountUsd && r.description == description && r.sourceFile == sourceFile
  {
    Incident("", title, date.0, PrecisionName(date.1), victim, attackVector, amountUsd,
             description, sourceFile)
  }

  /** `Incident::with_document_id`: only the document id changes. */
  function WithDocumentId(i: Incident, documentId: string): (r: Incident)
    ensures r.documentId == documentId
    ensures r.(documentId := i.documentId) == i
  {
    i.(documentId := documentId)
  }

  datatype IncidentBuilder = IncidentBuilder(
    title: Option<string>,
    date: Option<int>,
    datePrecision: DatePrecision,
    victim: Option<string>,
    attackVector: string,
    amountUsd: Option<real>,
    description: string,
    sourceFile: string)

  /** `IncidentBuilder::new`: nothing known yet, precision approximate,
      attack vector "unknown". */
  function NewBuilder(sourceFile: string): (b: IncidentBuilder)
    ensures b.title.None? && b.date.None? && b.victim.None? && b.amountUsd.None?
    ensures b.datePrecision == Approximate && b.attackVector == "unknown"
    ensures b.description == "" && b.sourceFile == sourceFile
  {
    IncidentBuilder(None, None, Approximate, None, "unknown", None, "", sourceFile)
  }

  function SetTitle(b: IncidentBuilder, title: string): IncidentBuilder {
    b.(title := Some(title))
  }

  /** The date setter sets the precision together with the timestamp. */
  function SetDate(b: IncidentBuilder, date: int, precision: DatePrecision): IncidentBuilder {
    b.(date := Some(date), datePrecision := precision)
  }

  function SetVictim(b: IncidentBuilder, victim: string): IncidentBuilder {
    b.(victim := Some(victim))
  }

  function SetAttackVector(b: IncidentBuilder, attackVector: string): IncidentBuilder {
    b.(attackVector := attackVector)
  }

  function SetAmountUsd(b: IncidentBuilder, amount: real): IncidentBuilder {
    b.(amountUsd := Some(amount))
  }

  function SetDescription(b: IncidentBuilder, description: string): IncidentBuilder {
    b.(description := description)
  }

  /** `IncidentBuilder::build`: an incident exists exactly when a date, a
      title and a victim were all given, and it carries what was set. */
  function Build(b: IncidentBuilder): (r: Option<Incident>)
    ensures r.Some? <==> b.date.Some? && b.title.Some? && b.victim.Some?
    ensures r.Some? ==> r.value == NewIncident(b.title.value, (b.date.value, b.datePrecision),
      b.victim.value, b.attackVector, b.amountUsd, b.description, b.sourceFile)
  {
    if b.date.None? || b.title.None? || b.victim.None? then None
    else Some(NewIncident(b.title.value, (b.date.value, b.datePrecision), b.victim.value,
                          b.attackVector, b.amountUsd, b.description, b.sourceFile))
  }

  /** The setters commute with each other's fields: a builder that was given
      a title, a date and a victim builds, whatever else was or was not set,
      and the date's precision is the one given with it. */
  lemma BuilderChainBuilds(src: string, t: string, d: int, p: DatePrecision, v: string, av: string)
    ensures var r := Build(SetAttackVector(SetVictim(SetDate(SetTitle(NewBuilder(src), t), d, p), v), av));
      r.Some? && r.value.title == t && r.value.date == d && r.value.datePrecision == PrecisionName(p)
      && r.value.victim == v && r.value.attackVector == av && r.value.amountUsd.None?
      && r.value.sourceFile == src && r.value.documentId == ""
  {
  }

  /** Without a victim nothing is built, however much else is known. */
  lemma NoVictimNoIncident(src: string, t: string, d: int, p: DatePrecision, amount: real)
    ensures Build(SetAmountUsd(SetDate(SetTitle(NewBuilder(src), t), d, p), amount)).None?
  {
  }
}
