/**
 * The input-slot editing of the configuration panel: set a slot's value,
 * rename a slot, add a slot under a fresh key, remove a slot. The slots are a
 * string-keyed map; each operation yields the map handed to `onChange`.
 */
module SlotEditor {
  import opened Optional
  import opened Text
  import opened Json
  import opened InputSlots

  /**
   * The names a plain object inherits from `Object.prototype`. Looking one of
   * them up on the slots object yields a function (or, for `__proto__`, the
   * prototype itself), which is truthy, unless a slot of that name shadows it.
   */
  const Inherited: set<string> := {
    "constructor", "hasOwnProperty", "isPrototypeOf", "propertyIsEnumerable",
    "toString", "toLocaleString", "valueOf", "__proto__",
    "__defineGetter__", "__defineSetter__", "__lookupGetter__", "__lookupSetter__"
  }

  /**
   * `inputSlots[key]` is truthy: the key is present with a non-empty value, or
   * it is absent and names a property inherited from `Object.prototype`.
   */
  predicate Occupied(slots: map<string, string>, key: string) {
    if key in slots then slots[key] != "" else key in Inherited
  }

  /** `handleSlotValueChange`: the key now holds `value`; every other entry is kept. */
  function SetSlotValue(slots: map<string, string>, key: string, value: string): (r: map<string, string>)
    ensures r.Keys == slots.Keys + {key} && r[key] == value
    ensures forall k :: k in slots && k != key ==> r[k] == slots[k]
  {
    slots[key := value]
  }

  /**
   * `handleSlotKeyChange`: the trimmed new key replaces `oldKey`, keeping its
   * value. Nothing changes when the trimmed key is empty, is the old key, or
   * is occupied, which includes an inherited name such as `constructor` that no
   * slot shadows; an existing slot holding `""` is overwritten.
   */
  function RenameSlot(slots: map<string, string>, oldKey: string, input: string): (r: map<string, string>)
    requires oldKey in slots
    ensures var newKey := Trim(input);
      newKey == "" || newKey == oldKey || Occupied(slots, newKey) ==> r == slots
    ensures var newKey := Trim(input);
      newKey != "" && newKey != oldKey && !Occupied(slots, newKey) ==>
        && r.Keys == slots.Keys - {oldKey} + {newKey}
        && r[newKey] == slots[oldKey]
        && forall k :: k in slots && k != oldKey && k != newKey ==> r[k] == slots[k]
  {
    var newKey := Trim(input);
    if newKey == "" || newKey == oldKey then slots
    else if Occupied(slots, newKey) then slots
    else (slots - {oldKey})[newKey := slots[oldKey]]
  }

  /**
   * Renaming to a name inherited from `Object.prototype` that no slot shadows
   * is refused, although no slot of that name exists.
   */
  lemma RenameToInheritedRefused(slots: map<string, string>, oldKey: string, input: string)
    requires oldKey in slots
    requires Trim(input) in Inherited && Trim(input) !in slots
    ensures RenameSlot(slots, oldKey, input) == slots
  {
  }

  /**
   * Renaming a slot to an unused key and back restores the slots. Neither key
   * may be an inherited name: the first rename would be refused for `b`, the
   * second for `a` once `a` is no longer a slot.
   */
  lemma RenameRoundTrip(slots: map<string, string>, a: string, b: string)
    requires a in slots && b !in slots
    requires a != "" && Trim(a) == a && b != "" && Trim(b) == b
    requires a !in Inherited && b !in Inherited
    ensures RenameSlot(RenameSlot(slots, a, b), b, a) == slots
  {
    var once := RenameSlot(slots, a, b);
    assert once == (slots - {a})[b := slots[a]];
    assert !Occupied(once, a);
    var twice := RenameSlot(once, b, a);
    assert twice == (once - {b})[a := slots[a]];
    assert twice.Keys == slots.Keys;
  }

  /** The candidate key after `tries` collisions: `slot_<n>` followed by `_x` that many times. */
  function Candidate(n: nat, tries: nat): string {
    "slot_" + Decimal(n) + Repeat("_x", tries)
  }

  /**
   * `key` is candidate number `tries` for a map of `|slots|` entries, and every
   * earlier candidate is occupied.
   */
  ghost predicate ReachedAfter(slots: map<string, string>, key: string, tries: nat) {
    var n := |slots| + 1;
    key == Candidate(n, tries) && forall i :: 0 <= i < tries ==> Occupied(slots, Candidate(n, i))
  }

  /** The keys of `slots` at least `len` characters long. */
  ghost function LongKeys(slots: map<string, string>, len: nat): set<string> {
    set k | k in slots && |k| >= len
  }

  /** No candidate key is an inherited name: they all start with `s`, none of those does. */
  lemma CandidateNotInherited(n: nat, tries: nat)
    ensures Candidate(n, tries) !in Inherited
  {
    assert Candidate(n, tries)[0] == 's';
  }

  lemma LongKeysShrink(slots: map<string, string>, key: string)
    requires key in slots
    ensures |LongKeys(slots, |key| + 2)| < |LongKeys(slots, |key|)|
  {
    var longer := LongKeys(slots, |key| + 2);
    var long := LongKeys(slots, |key|);
    assert longer <= long - {key};
    assert |long - {key}| == |long| - 1;
    SubsetCard(longer, long - {key});
  }

  lemma {:induction false} SubsetCard(a: set<string>, b: set<string>)
    requires a <= b
    ensures |a| <= |b|
    decreases |a|
  {
    if a != {} {
      var x :| x in a;
      SubsetCard(a - {x}, b - {x});
    }
  }

  /**
   * `addSlot`: starting from `slot_<count + 1>`, appends `_x` while the
   * candidate is occupied, then binds the first free candidate to `""`. It
   * never overwrites a slot holding a value.
   */
  method AddSlot(slots: map<string, string>) returns (r: map<string, string>, key: string)
    ensures !Occupied(slots, key)
    ensures exists tries: nat :: ReachedAfter(slots, key, tries)
    ensures r == slots[key := ""]
  {
    var slotIndex := |slots.Keys| + 1;
    key := "slot_" + Decimal(slotIndex);
    ghost var tries := 0;
    while Occupied(slots, key)
      invariant key == Candidate(slotIndex, tries)
      invariant forall i :: 0 <= i < tries ==> Occupied(slots, Candidate(slotIndex, i))
      decreases |LongKeys(slots, |key|)|
    {
      CandidateNotInherited(slotIndex, tries);
      LongKeysShrink(slots, key);
      key := key + "_x";
      tries := tries + 1;
    }
    assert ReachedAfter(slots, key, tries);
    r := slots[key := ""];
  }

  /** `removeSlot`: a copy of the slots with `key` deleted; deleting an absent key changes nothing. */
  method RemoveSlot(slots: map<string, string>, key: string) returns (next: map<string, string>)
    ensures next.Keys == slots.Keys - {key}
    ensures forall k :: k in next ==> next[k] == slots[k]
    ensures key !in slots ==> next == slots
  {
    next := slots;
    next := next - {key};
  }

  /**
   * What an edited value means for the next request: a blank value, such as
   * the `""` of a slot just added, is not sent at all; any other value is
   * sent parsed, and the other slots are sent as before.
   */
  lemma SetSlotValueSent(slots: map<string, string>, key: string, value: string, parse: string -> Option<Json>)
    ensures var sent := ParsedSlots(SetSlotValue(slots, key, value), parse);
      && (IsBlank(value) ==> key !in sent)
      && (!IsBlank(value) ==> key in sent && sent[key] == SlotValueOf(value, parse))
      && (forall k :: k != key ==> (k in sent <==> k in ParsedSlots(slots, parse)))
      && (forall k :: k != key && k in sent ==> sent[k] == ParsedSlots(slots, parse)[k])
  {
  }

  /** A slot just added is blank, so it is not sent until it is given a value. */
  lemma AddedSlotNotSent(slots: map<string, string>, key: string, parse: string -> Option<Json>)
    ensures key !in ParsedSlots(slots[key := ""], parse)
  {
    TrimEmptyIffBlank("");
  }
}
