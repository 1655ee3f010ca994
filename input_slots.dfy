/**
 * `parseInputSlots`: the named input slots of the chat form, turned into the
 * `input_slots` object of a streaming request. Blank values are left out;
 * every other value is sent as structured data when it parses as JSON and as
 * the literal text otherwise.
 */
module InputSlots {
  import opened Optional
  import opened Text
  import opened Json

  /** A slot value as sent: parsed structured data, or the literal text. */
  datatype SlotValue = Structured(json: Json) | Literal(text: string)

  /** A value whose `trim()` is empty, which `parseInputSlots` skips. */
  predicate IsBlank(value: string) {
    Trim(value) == ""
  }

  /** The slot value sent for one form value: the parse when there is one, else the text itself. */
  function SlotValueOf(value: string, parse: string -> Option<Json>): SlotValue {
    match parse(value)
    case Some(j) => Structured(j)
    case None => Literal(value)
  }

  /** The `input_slots` object a request carries, as a value. */
  function ParsedSlots(slots: map<string, string>, parse: string -> Option<Json>): map<string, SlotValue> {
    map k | k in slots && !IsBlank(slots[k]) :: SlotValueOf(slots[k], parse)
  }

  /**
   * Fills the result one form entry at a time. No key outside the form ever
   * appears, a blank value is omitted, and every other key maps to the parse
   * of its value when the parse succeeds and to the value itself when it fails.
   */
  method ParseInputSlots(slots: map<string, string>, parse: string -> Option<Json>)
    returns (parsed: map<string, SlotValue>)
    ensures forall k :: k in parsed <==> k in slots && !IsBlank(slots[k])
    ensures forall k :: k in parsed && parse(slots[k]).Some? ==>
      parsed[k] == Structured(parse(slots[k]).value)
    ensures forall k :: k in parsed && parse(slots[k]).None? ==> parsed[k] == Literal(slots[k])
    ensures parsed == ParsedSlots(slots, parse)
  {
    parsed := map[];
    var todo := slots.Keys;
    while todo != {}
      invariant todo <= slots.Keys
      invariant forall k :: k in parsed <==> k in slots && k !in todo && !IsBlank(slots[k])
      invariant forall k :: k in parsed ==> parsed[k] == SlotValueOf(slots[k], parse)
      decreases todo
    {
      var key :| key in todo;
      var value := slots[key];
      todo := todo - {key};
      if Trim(value) == "" {
        continue;
      }
      match parse(value) {
        case Some(j) => parsed := parsed[key := Structured(j)];
        case None => parsed := parsed[key := Literal(value)];
      }
    }
    assert parsed.Keys == ParsedSlots(slots, parse).Keys;
  }
}
