/**
  Indicator-of-compromise records (src/models/ioc.rs).
*/
module IocModel {

  datatype IocType = Ip | Domain | Hash | Email | Url

  /** `IocType::as_str`. */
  function IocTypeName(t: IocType): string {
    match t
    case Ip => "ip"
    case Domain => "domain"
    case Hash => "hash"
    case Email => "email"
    case Url => "url"
  }

  lemma IocTypeNameInjective(a: IocType, b: IocType)
    ensures IocTypeName(a) == IocTypeName(b) <==> a == b
  {
  }

  /** The stored record; `extracted_at` (a wall-clock read) is not modelled. */
  datatype Ioc = Ioc(iocType: string, value: string, documentId: string, context: string)

  /** `Ioc::new`. */
  function NewIoc(t: IocType, value: string, context: string): (r: Ioc)
    ensures r.iocType == IocTypeName(t) && r.value == value && r.context == context
    ensures r.documentId == ""
  {
    Ioc(IocTypeName(t), value, "", context)
  }

  /** `Ioc::with_document_id`: only the document id changes. */
  function WithDocumentId(i: Ioc, documentId: string): (r: Ioc)
    ensures r.documentId == documentId
    ensures r.(documentId := i.documentId) == i
  {
    i.(documentId := documentId)
  }
}
