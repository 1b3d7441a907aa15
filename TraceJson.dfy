/**
 * The values a trace event carries and the shape of the JSON text the
 * tracer produces.  The encoding of one event object is left abstract
 * (an `Encoder`); only the array shape that `json_encode` gives a list
 * of events, "[" + items joined by "," + "]", is spelled out, because
 * the file protocol cuts that text apart.
 */
module TraceJson {

  /** A field value: PHP's null, a string, an integer, or a nested array. */
  datatype Value = Null | Str(s: string) | Num(n: int) | Obj(fields: map<string, Value>)

  /** One trace event: a sparse key -> value record. */
  type Record = map<string, Value>

  /** The text of a JSON object: it opens with '{' and closes with '}'. */
  predicate IsObjectText(s: string)
  {
    |s| >= 2 && s[0] == '{' && s[|s| - 1] == '}'
  }

  /** `json_encode` applied to one event record: some object text. */
  type Encoder = f: Record -> string | forall r :: IsObjectText(f(r))
    witness (r: Record) => "{}"

  /** The items joined by ",", with no other separator. */
  function Join(items: seq<string>): string
  {
    if |items| == 0 then ""
    else if |items| == 1 then items[0]
    else items[0] + "," + Join(items[1..])
  }

  /** `json_encode` of a list whose elements encode to `items`. */
  function EncodeArray(items: seq<string>): (r: string)
    ensures |r| >= 2 && r[0] == '[' && r[|r| - 1] == ']'
    ensures r[1..|r| - 1] == Join(items)
  {
    "[" + Join(items) + "]"
  }

  /** Every encoded event, in order. */
  function EncodeAll(enc: Encoder, events: seq<Record>): (r: seq<string>)
    ensures |r| == |events|
    ensures forall i :: 0 <= i < |events| ==> r[i] == enc(events[i])
  {
    if events == [] then [] else [enc(events[0])] + EncodeAll(enc, events[1..])
  }

  /** Joining keeps the items in order: a longer list is the shorter one, a comma, and the new item. */
  lemma {:induction false} JoinSnoc(items: seq<string>, item: string)
    requires items != []
    ensures Join(items + [item]) == Join(items) + "," + item
  {
    if |items| == 1 {
      assert items + [item] == [items[0], item];
    } else {
      assert (items + [item])[1..] == items[1..] + [item];
      JoinSnoc(items[1..], item);
    }
  }
}
