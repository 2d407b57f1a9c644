/** Entries of the attestation setting. */
module Attests {
  import opened Common
  import opened Texts
  import opened CsvLine
  import opened Csv
  import opened Slices

  datatype Error = NotCsv | InvalidValue | TypeRequired

  const TYPE := "type"
  const DISABLED := "disabled"
  const TRUE := "true"

  const FRESH := Attest("", false, map[])

  predicate Reserved(k: string) {
    k == TYPE || k == DISABLED
  }

  function Flag(a: Attest): seq<Pair> {
    if a.disabled then [Pair(DISABLED, TRUE)] else []
  }

  function Head(a: Attest): seq<Pair> {
    (if a.typ != "" then [Pair(TYPE, a.typ)] else []) + Flag(a)
  }

  ghost function PairsOf(a: Attest): seq<Pair> {
    Head(a) + SortedPairs(a.attrs)
  }

  ghost function Printed(a: Attest): string {
    Text(PairsOf(a))
  }

  function Others(m: map<string, string>): map<string, string> {
    map k | k in m && !Reserved(k) :: m[k]
  }

  /** The type and the flag keep their previous values when no field sets them. */
  function FromMap(prev: Attest, m: map<string, string>): Attest {
    Attest(if TYPE in m then m[TYPE] else prev.typ,
           if DISABLED in m then ParseBool(m[DISABLED]) == Some(true) else prev.disabled,
           Others(m))
  }

  /** The field sets the flag to something that is not a truth value. */
  predicate BadField(f: string) {
    Cut(f).Some? && TrimLower(Cut(f).value.key) == DISABLED && ParseBool(Cut(f).value.value).None?
  }

  /** Some field sets the flag badly. */
  predicate AnyBad(fs: seq<string>) {
    fs != [] && (AnyBad(fs[..|fs| - 1]) || BadField(fs[|fs| - 1]))
  }

  lemma {:induction false} BadBefore(fs: seq<string>, i: nat)
    requires i <= |fs| && AnyBad(fs[..i])
    ensures AnyBad(fs)
    decreases |fs| - i
  {
    if i == |fs| {
      assert fs[..i] == fs;
    } else {
      assert fs[..i + 1][..i] == fs[..i];
      BadBefore(fs, i + 1);
    }
  }

  function Checked(prev: Attest, m: Option<map<string, string>>, bad: bool): Result<Attest, Error> {
    if bad || m.None? then Err(InvalidValue)
    else if FromMap(prev, m.value).typ == "" then Err(TypeRequired)
    else Ok(FromMap(prev, m.value))
  }

  function Read(prev: Attest, s: string): Result<Attest, Error> {
    match Fields(s)
    case None => Err(NotCsv)
    case Some(fs) => Checked(prev, Assigned(fs, TrimLower), AnyBad(fs))
  }

  lemma {:induction false} BadAt(fs: seq<string>, i: nat)
    requires i < |fs| && BadField(fs[i])
    ensures AnyBad(fs)
  {
    if i < |fs| - 1 {
      BadAt(fs[..|fs| - 1], i);
    }
  }

  lemma {:induction false} BadSomewhere(fs: seq<string>) returns (i: nat)
    requires AnyBad(fs)
    ensures i < |fs| && BadField(fs[i])
  {
    if BadField(fs[|fs| - 1]) {
      i := |fs| - 1;
    } else {
      i := BadSomewhere(fs[..|fs| - 1]);
    }
  }

  /** Fields are bad if and only if one of them is. */
  lemma AnyBadMeans(fs: seq<string>)
    ensures AnyBad(fs) <==> exists i :: 0 <= i < |fs| && BadField(fs[i])
  {
    if AnyBad(fs) {
      var i := BadSomewhere(fs);
    }
    if i :| 0 <= i < |fs| && BadField(fs[i]) {
      BadAt(fs, i);
    }
  }

  lemma BadFieldMeans(f: string)
    ensures BadField(f) <==> Gives(f, TrimLower, "disabled") && ParseBool(Cut(f).value.value).None?
  {
  }

  /** What the fields of a text make of an entry; a type or flag that no field gives stays as it was. */
  lemma ReadMeans(prev: Attest, s: string, fs: seq<string>)
    requires Fields(s) == Some(fs)
    ensures Read(prev, s) == Err(InvalidValue) <==> exists i :: 0 <= i < |fs| && (BadField(fs[i]) || EQ !in fs[i])
    ensures var typ := LastValue(fs, TrimLower, "type");
            (Read(prev, s) == Err(TypeRequired) ==> (typ.None? && prev.typ == "") || typ == Some("")) && Read(prev, s) != Err(NotCsv) &&
            (Read(prev, s).Ok? ==> Read(prev, s).value.typ == (if typ.Some? then typ.value else prev.typ) && Read(prev, s).value.typ != "")
    ensures var flag := LastValue(fs, TrimLower, "disabled");
            Read(prev, s).Ok? ==> Read(prev, s).value.disabled == if flag.Some? then ParseBool(flag.value) == Some(true) else prev.disabled
    ensures Read(prev, s).Ok? ==>
              forall k :: Lookup(Read(prev, s).value.attrs, k) == if k == "type" || k == "disabled" then None else LastValue(fs, TrimLower, k)
  {
    AllPairs(fs, TrimLower);
    AnyBadMeans(fs);
    if Assigned(fs, TrimLower).Some? {
      ValueGiven(fs, TrimLower, "type");
      ValueGiven(fs, TrimLower, "disabled");
      forall k ensures Lookup(Assigned(fs, TrimLower).value, k) == LastValue(fs, TrimLower, k) {
        ValueGiven(fs, TrimLower, k);
      }
    }
  }

  method Print(a: Attest) returns (s: string)
    ensures s == Printed(a)
  {
    var b := new CsvBuilder();
    if a.typ != "" {
      b.Write(TYPE, a.typ);
    }
    if a.disabled {
      b.Write(DISABLED, TRUE);
    }
    assert b.written == Head(a);
    if |a.attrs| > 0 {
      b.WriteAttributes(a.attrs);
    } else {
      SortedNone(a.attrs);
    }
    assert b.written == Head(a) + SortedPairs(a.attrs);
    s := b.sb;
  }

  class AttestEntry {
    var typ: string
    var disabled: bool
    var attrs: map<string, string>

    constructor ()
      ensures Value() == FRESH
    {
      typ, disabled, attrs := "", false, map[];
    }

    function Value(): Attest
      reads this
    {
      Attest(typ, disabled, attrs)
    }

    method Set(key: string, value: string, ghost prev: Attest, ghost m: map<string, string>) returns (ok: bool)
      requires Value() == FromMap(prev, m)
      modifies this
      ensures ok <==> !(key == DISABLED && ParseBool(value).None?)
      ensures ok ==> Value() == FromMap(prev, m[key := value])
    {
      if key == TYPE {
        typ := value;
      } else if key == DISABLED {
        var b := ParseBool(value);
        if b.None? {
          return false;
        }
        disabled := b.value;
      } else {
        attrs := attrs[key := value];
      }
      assert attrs == Others(m[key := value]);
      return true;
    }

    method SetField(f: string, ghost prev: Attest, ghost m: map<string, string>) returns (ok: bool)
      requires Value() == FromMap(prev, m)
      modifies this
      ensures ok <==> Cut(f).Some? && !BadField(f)
      ensures ok ==> Value() == FromMap(prev, m[TrimLower(Cut(f).value.key) := Cut(f).value.value])
    {
      var parts := Cut(f);
      if parts.None? {
        return false;
      }
      ok := Set(TrimLower(parts.value.key), parts.value.value, prev, m);
    }

    method SetAll(fields: seq<string>, ghost prev: Attest) returns (ok: bool)
      requires Value() == FromMap(prev, map[])
      modifies this
      ensures ok <==> Assigned(fields, TrimLower).Some? && !AnyBad(fields)
      ensures ok ==> Value() == FromMap(prev, Assigned(fields, TrimLower).value)
    {
      ghost var m: map<string, string> := map[];
      for i := 0 to |fields|
        invariant Assigned(fields[..i], TrimLower) == Some(m) && Value() == FromMap(prev, m)
        invariant !AnyBad(fields[..i])
      {
        assert fields[..i + 1][..i] == fields[..i];
        ok := SetField(fields[i], prev, m);
        if !ok {
          if Cut(fields[i]).None? {
            AssignedStops(fields, i + 1, TrimLower);
          } else {
            BadBefore(fields, i + 1);
          }
          return;
        }
        m := Assigned(fields[..i + 1], TrimLower).value;
      }
      assert fields[..|fields|] == fields;
      return true;
    }

    method UnmarshalText(s: string) returns (err: Option<Error>)
      modifies this
      ensures match Read(old(Value()), s) case Ok(a) => err == None && Value() == a case Err(x) => err == Some(x)
    {
      ghost var prev := Value();
      var parsed := Fields(s);
      if parsed.None? {
        return Some(NotCsv);
      }
      var fields := parsed.value;
      attrs := map[];
      assert Others(map[]) == map[];
      var ok := SetAll(fields, prev);
      if !ok {
        return Some(InvalidValue);
      }
      if typ == "" {
        return Some(TypeRequired);
      }
      return None;
    }
  }

  /** Values and keys that survive being printed and read. */
  ghost predicate PlainEntry(a: Attest) {
    a.typ != "" && Free(a.typ) && PlainMap(a.attrs, TrimLower) && forall k :: k in a.attrs ==> !Reserved(k)
  }

  /** An entry that survives being printed and read: also, its text must not end with a line break. */
  ghost predicate Readable(a: Attest) {
    PlainEntry(a) && Simple(Printed(a))
  }

  lemma CheckedPlain(m: map<string, string>)
    requires PlainMap(m, TrimLower) && FromMap(FRESH, m).typ != ""
    ensures PlainEntry(FromMap(FRESH, m))
  {
    assert TYPE in m ==> Plain(Pair(TYPE, m[TYPE]), TrimLower);
    forall k | k in Others(m) ensures Plain(Pair(k, Others(m)[k]), TrimLower) {
      assert Plain(Pair(k, m[k]), TrimLower);
    }
  }

  /** Whatever is read from a simple text into a fresh entry is plain. */
  lemma ReadIsPlain(s: string)
    requires Simple(s)
    ensures Read(FRESH, s).Ok? ==> PlainEntry(Read(FRESH, s).value)
  {
    if s != "" {
      SimpleFields(s);
      SimpleParts(s);
      var m := Assigned(Split(s, COMMA), TrimLower);
      if m.Some? && FromMap(FRESH, m.value).typ != "" {
        assert Settles(TrimLower) by { TrimLowerSettles(); }
        AssignedPlain(Split(s, COMMA), TrimLower);
        CheckedPlain(m.value);
      }
    }
  }

  lemma KeysSettled()
    ensures TrimLower(TYPE) == TYPE && EQ !in TYPE && Free(TYPE) && TrimLower(DISABLED) == DISABLED && EQ !in DISABLED && Free(DISABLED)
  {
    NameSettled(TYPE);
    NameSettled(DISABLED);
  }

  lemma PairsPlain(a: Attest)
    requires PlainEntry(a)
    ensures AllPlain(PairsOf(a), TrimLower)
  {
    KeysSettled();
    PlainBehind(Head(a), a.attrs, TrimLower);
  }

  lemma PairsNotBad(a: Attest)
    requires PlainEntry(a)
    ensures !AnyBad(FieldsOf(PairsOf(a)))
  {
    var ps := PairsOf(a);
    PairsPlain(a);
    forall i | 0 <= i < |ps| && ps[i].key == DISABLED ensures ps[i].value == TRUE {
    }
    NoneBad(ps);
  }

  lemma {:induction false} NoneBad(ps: seq<Pair>)
    requires AllPlain(ps, TrimLower) && forall i :: 0 <= i < |ps| && ps[i].key == DISABLED ==> ps[i].value == TRUE
    ensures !AnyBad(FieldsOf(ps))
  {
    if ps != [] {
      var t, p := ps[..|ps| - 1], ps[|ps| - 1];
      NoneBad(t);
      assert FieldsOf(ps)[..|t|] == FieldsOf(t);
      CutField(p);
      assert Plain(p, TrimLower);
    }
  }

  lemma OthersOfAll(prev: Attest, typ: string, d: map<string, string>, attrs: map<string, string>)
    requires (forall k :: k in attrs ==> !Reserved(k)) && (d == map[] || d == map[DISABLED := TRUE])
    ensures FromMap(prev, map[TYPE := typ] + d + attrs) == Attest(typ, if DISABLED in d then true else prev.disabled, attrs)
  {
    assert Others(map[TYPE := typ] + d + attrs) == attrs;
  }

  lemma PairsGive(prev: Attest, a: Attest)
    requires PlainEntry(a)
    ensures FromMap(prev, MapOf(PairsOf(a))) == a.(disabled := a.disabled || prev.disabled)
  {
    var t, d, ps := [Pair(TYPE, a.typ)], Flag(a), SortedPairs(a.attrs);
    MapOfConcat(t + d, ps);
    MapOfConcat(t, d);
    MapOfSorted(a.attrs);
    assert MapOf(t) == map[TYPE := a.typ];
    assert MapOf(d) == if a.disabled then map[DISABLED := TRUE] else map[];
    assert PairsOf(a) == t + d + ps;
    OthersOfAll(prev, a.typ, MapOf(d), a.attrs);
  }

  /** A printed entry is read back; a flag that was set before stays set. */
  lemma ReadPrinted(prev: Attest, a: Attest)
    requires Readable(a)
    ensures Read(prev, Printed(a)) == Ok(a.(disabled := a.disabled || prev.disabled))
  {
    PairsPlain(a);
    PairsNotBad(a);
    PairsGive(prev, a);
    TextRead(PairsOf(a), TrimLower);
  }

  lemma PairsDistinct(a: Attest)
    requires forall k :: k in a.attrs ==> !Reserved(k)
    ensures DistinctKeys(PairsOf(a))
  {
    assert forall i :: 0 <= i < |Head(a)| ==> Reserved(Head(a)[i].key);
    DistinctBehind(Head(a), a.attrs);
  }

  lemma PairsAmong(m: map<string, string>, c: char)
    requires Lossy(c)
    ensures Among(PairsOf(FromMap(FRESH, m)), m, c)
  {
    CountZero(TRUE, c);
    AmongBehind(Head(FromMap(FRESH, m)), Others(m), m, c);
  }

  /** An entry that is read from its own text was printed without anything that reading loses. */
  lemma ReadBack(a: Attest)
    requires Read(FRESH, Printed(a)) == Ok(a)
    ensures Simple(Printed(a))
  {
    var m := Assigned(Fields(Printed(a)).value, TrimLower).value;
    PairsDistinct(a);
    PairsAmong(m, QUOTE);
    PairsAmong(m, NL);
    TrimLowerSparing(QUOTE);
    TrimLowerSparing(NL);
    ReadBackSimple(PairsOf(a), TrimLower);
  }

  /** Printing and reading into a fresh entry is the identity exactly on the readable entries. */
  lemma RoundTrip(a: Attest)
    ensures Read(FRESH, Printed(a)) == Ok(a) <==> Readable(a)
  {
    if Read(FRESH, Printed(a)) == Ok(a) {
      ReadBack(a);
      ReadIsPlain(Printed(a));
    }
    if Readable(a) {
      ReadPrinted(FRESH, a);
    }
  }
}
