/** The lead record as the browser receives it from the leads endpoint, and
    the JavaScript notions of truthiness and strict equality the pages use. */
module Client {
  import opened Basics
  import Text

  /** A JSON scalar as it reaches a strict-equality comparison. */
  datatype JsValue = JStr(s: string) | JNum(n: int) | JNull

  /** One serialized lead: the fields the pages read. `contactName`,
      `division` and `assignedTo` may be null. */
  datatype Lead = Lead(
    id: int,
    status: string,
    company: string,
    contactName: Option<string>,
    division: Option<string>,
    priority: string,
    assignedTo: Option<int>,
    progress: int,
    probability: int)

  /** The drag-and-drop id of a lead card: `lead.id.toString()`. */
  function Key(l: Lead): (k: string)
    ensures |k| >= 1
  {
    Text.Decimal(l.id)
  }

  /** Two leads with the same card key have the same id. */
  lemma KeyNamesId(a: Lead, b: Lead)
    requires Key(a) == Key(b)
    ensures a.id == b.id
  {
    Text.DecimalInjective(a.id, b.id);
  }

  /** JavaScript truthiness of a nullable string: neither null nor "". */
  predicate TruthyStr(v: Option<string>)
  {
    v.Some? && v.value != ""
  }

  /** JavaScript truthiness of a nullable number: neither null nor 0. */
  predicate TruthyNum(v: Option<int>)
  {
    v.Some? && v.value != 0
  }

  function StrValue(v: Option<string>): JsValue
  {
    match v
      case None => JNull
      case Some(s) => JStr(s)
  }

  function NumValue(v: Option<int>): JsValue
  {
    match v
      case None => JNull
      case Some(n) => JNum(n)
  }

  /** Lead ids are unique in a list loaded from the server. */
  predicate UniqueIds(leads: seq<Lead>)
  {
    forall i, j :: 0 <= i < j < |leads| ==> leads[i].id != leads[j].id
  }
}
