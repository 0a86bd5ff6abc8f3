/** The parsed JSON the GitHub API returns, as far as the program looks
    at it, and Python's rendering of a field value in an f-string. */
module Json {
  import opened Text

  /** A field value of a response item. Numbers other than integers and
      nested objects or arrays are carried with the text Python's str()
      gives them, since the program only ever prints them. */
  datatype Value =
    | Str(s: string)
    | Int(i: int)
    | Bool(b: bool)
    | Null
    | Formatted(text: string)

  /** A response item: a JSON object with its fields in document order. */
  type Item = seq<(string, Value)>

  /** A parsed JSON object never repeats a key. */
  predicate DistinctKeys(item: Item) {
    forall i, j :: 0 <= i < j < |item| ==> item[i].0 != item[j].0
  }

  /** Every item of a parsed body is a JSON object. */
  predicate WellFormed(body: Body) {
    match body
    case Envelope(_, _, items) => forall i :: 0 <= i < |items| ==> DistinctKeys(items[i])
    case List(elements) => forall i :: 0 <= i < |elements| ==> DistinctKeys(elements[i])
    case Other => true
  }

  /** The parsed body of a response: a search envelope (a dict with
      `total_count`, `incomplete_results` and `items`), a bare list of
      items, or a JSON value that is neither a dict nor a list. */
  datatype Body =
    | Envelope(totalCount: Value, incompleteResults: Value, items: seq<Item>)
    | List(elements: seq<Item>)
    | Other

  /** An HTTP reply: whether its status was a success, and its body. */
  datatype Reply = Reply(ok: bool, body: Body)

  /** The text `f"{v}"` produces for a value `v`. */
  function ValueText(v: Value): string {
    match v
    case Str(s) => s
    case Int(i) => IntToString(i)
    case Bool(b) => if b then "True" else "False"
    case Null => "None"
    case Formatted(text) => text
  }
}
