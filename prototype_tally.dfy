/** The tag-count object as the three `getPopularTags` copies actually build it: the
    accumulator is the literal `{}`, whose prototype is `Object.prototype`, so
    `acc[tag] || 0` reads an inherited member for a tag that names one. An inherited
    method is truthy, and `method + 1` is string concatenation, so the stored count is
    a string; and assigning to `__proto__` goes through the prototype setter, which
    ignores a string, so that tag gets no entry at all. */
module PrototypeTally {
  import opened JsArray
  import opened NoteQueries

  /** The value stored under a tag: a number, or the string `inherited + 1` and its
      further concatenations. */
  datatype JsValue = Number(n: int) | NonNumeric

  /** An own property of the accumulator. */
  datatype Slot = Slot(tag: string, value: JsValue)

  function SlotTag(e: Slot): string { e.tag }

  /** The property names `Object.prototype` supplies through the prototype chain
      (section 20.1.3 of ECMA-262 and its Annex B accessors); every one reads as a
      function except `__proto__`, which reads as the prototype object itself. */
  const ObjectPrototypeKeys: set<string> := {
    "constructor", "hasOwnProperty", "isPrototypeOf", "propertyIsEnumerable",
    "toLocaleString", "toString", "valueOf", "__defineGetter__", "__defineSetter__",
    "__lookupGetter__", "__lookupSetter__", "__proto__"
  }

  /** `(v || 0) + 1` on a stored value. */
  function Succ(v: JsValue): (r: JsValue)
    ensures v.Number? ==> r == Number(v.n + 1)
    ensures v.NonNumeric? ==> r.NonNumeric?
  {
    match v
    case Number(n) => Number(n + 1)
    case NonNumeric => NonNumeric
  }

  /** `acc[tag] = (acc[tag] || 0) + 1` on a `{}` accumulator, as written. */
  function BumpAsWritten(d: seq<Slot>, t: string): (r: seq<Slot>)
    ensures |d| <= |r| <= |d| + 1
    ensures t == "__proto__" ==> r == d
    ensures t != "__proto__" && t !in ObjectPrototypeKeys && FindIndex(d, SlotTag, t) < 0 ==>
      r == d + [Slot(t, Number(1))]
    ensures t != "__proto__" && t in ObjectPrototypeKeys && FindIndex(d, SlotTag, t) < 0 ==>
      r == d + [Slot(t, NonNumeric)]
  {
    var i := FindIndex(d, SlotTag, t);
    if t == "__proto__" then d
    else if i >= 0 then d[i := Slot(t, Succ(d[i].value))]
    else if t in ObjectPrototypeKeys then d + [Slot(t, NonNumeric)]
    else d + [Slot(t, Number(1))]
  }

  /** The nested `forEach` over the tags, in visiting order, as written. */
  function TallyAsWritten(ts: seq<string>): (r: seq<Slot>)
    ensures |r| <= |ts|
  {
    if ts == [] then [] else BumpAsWritten(TallyAsWritten(ts[..|ts| - 1]), ts[|ts| - 1])
  }

  /** A tag added by one step is the tag visited, and never `__proto__`; the keys
      already there stay where they are. */
  lemma BumpAsWrittenKeys(d: seq<Slot>, t: string)
    ensures var r := BumpAsWritten(d, t);
      forall i :: 0 <= i < |r| ==> r[i].tag == (if i < |d| then d[i].tag else t)
    ensures |BumpAsWritten(d, t)| > |d| ==> t != "__proto__"
  {
  }

  /** Whatever the tags, the accumulator as written never gets an own `__proto__`
      entry: that key goes to the prototype setter every time. */
  lemma {:induction false} ProtoNeverStored(ts: seq<string>)
    ensures forall i :: 0 <= i < |TallyAsWritten(ts)| ==> TallyAsWritten(ts)[i].tag != "__proto__"
  {
    if ts != [] {
      var p := ts[..|ts| - 1];
      ProtoNeverStored(p);
      BumpAsWrittenKeys(TallyAsWritten(p), ts[|ts| - 1]);
    }
  }

  /** A tally of numbers seen as stored values. */
  function AsSlots(d: seq<TagCount>): (r: seq<Slot>)
    ensures |r| == |d|
    ensures forall i :: 0 <= i < |d| ==> r[i] == Slot(d[i].tag, Number(d[i].count))
  {
    seq(|d|, i requires 0 <= i < |d| => Slot(d[i].tag, Number(d[i].count)))
  }

  /** A tag named `toString` is stored with a string for its count, where the intended
      tally counts it once. */
  lemma ToStringCounterexample()
    ensures TallyAsWritten(["toString"]) == [Slot("toString", NonNumeric)]
    ensures TallyTags(["toString"]) == [TagCount("toString", 1)]
  {
    assert ["toString"][..0] == [];
  }

  /** A tag named `__proto__` is dropped, where the intended tally counts it once. */
  lemma ProtoCounterexample()
    ensures TallyAsWritten(["__proto__"]) == []
    ensures TallyTags(["__proto__"]) == [TagCount("__proto__", 1)]
  {
    assert ["__proto__"][..0] == [];
  }

  /** For tags that name no member of `Object.prototype` the code computes the intended
      tally: in the same order, with the same numbers. */
  lemma {:induction false} AsWrittenAgrees(ts: seq<string>)
    requires forall i :: 0 <= i < |ts| ==> ts[i] !in ObjectPrototypeKeys
    ensures TallyAsWritten(ts) == AsSlots(TallyTags(ts))
  {
    if ts != [] {
      var p, t := ts[..|ts| - 1], ts[|ts| - 1];
      assert forall i :: 0 <= i < |p| ==> p[i] == ts[i];
      AsWrittenAgrees(p);
      BumpAgrees(TallyTags(p), t);
    }
  }

  /** One increment as written, on a tag that names no inherited member, is the intended
      increment. */
  lemma BumpAgrees(d: seq<TagCount>, t: string)
    requires t !in ObjectPrototypeKeys
    ensures BumpAsWritten(AsSlots(d), t) == AsSlots(Bump(d, t))
  {
    if FindIndex(d, Tag, t) >= 0 {
      BumpFoundAgrees(d, t);
    } else {
      BumpNewAgrees(d, t);
    }
  }

  /** An increment of a tag that has an entry, on both tallies. */
  lemma BumpFoundAgrees(d: seq<TagCount>, t: string)
    requires FindIndex(d, Tag, t) >= 0 && t != "__proto__"
    ensures BumpAsWritten(AsSlots(d), t) == AsSlots(Bump(d, t))
  {
    SameKeysSameIndex(d, t);
    var i := FindIndex(d, Tag, t);
    BumpAt(d, t, i);
    BumpAsWrittenAt(AsSlots(d), t, i);
    AsSlotsUpdate(d, i, t);
  }

  /** Proof step: `Bump` on a tag found at `i`. */
  lemma BumpAt(d: seq<TagCount>, t: string, i: nat)
    requires i < |d| && FindIndex(d, Tag, t) == i
    ensures Bump(d, t) == d[i := TagCount(t, d[i].count + 1)]
  {
  }

  /** Proof step: `BumpAsWritten` on a tag found at `i`. */
  lemma BumpAsWrittenAt(e: seq<Slot>, t: string, i: nat)
    requires i < |e| && FindIndex(e, SlotTag, t) == i && t != "__proto__"
    ensures BumpAsWritten(e, t) == e[i := Slot(t, Succ(e[i].value))]
  {
  }

  /** Proof step: seeing a tally as stored values commutes with updating one entry. */
  lemma AsSlotsUpdate(d: seq<TagCount>, i: nat, t: string)
    requires i < |d|
    ensures AsSlots(d[i := TagCount(t, d[i].count + 1)]) == AsSlots(d)[i := Slot(t, Succ(AsSlots(d)[i].value))]
  {
    var b := d[i := TagCount(t, d[i].count + 1)];
    var f := AsSlots(d)[i := Slot(t, Succ(AsSlots(d)[i].value))];
    forall j | 0 <= j < |b| ensures AsSlots(b)[j] == f[j] {
    }
  }

  /** A first entry for a tag outside the prototype's names, on both tallies. */
  lemma BumpNewAgrees(d: seq<TagCount>, t: string)
    requires FindIndex(d, Tag, t) < 0 && t !in ObjectPrototypeKeys
    ensures BumpAsWritten(AsSlots(d), t) == AsSlots(Bump(d, t))
  {
    SameKeysSameIndex(d, t);
    var b := d + [TagCount(t, 1)];
    var f := AsSlots(d) + [Slot(t, Number(1))];
    forall j | 0 <= j < |b| ensures AsSlots(b)[j] == f[j] {
      if j < |d| { assert b[j] == d[j]; }
    }
  }

  /** Both tallies find a tag at the same place. */
  lemma SameKeysSameIndex(d: seq<TagCount>, t: string)
    ensures FindIndex(AsSlots(d), SlotTag, t) == FindIndex(d, Tag, t)
  {
    var e := AsSlots(d);
    forall j | 0 <= j < |d| ensures SlotTag(e[j]) == Tag(d[j]) {
    }
  }
}
