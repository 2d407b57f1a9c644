/** Entries of the cache settings; a registry entry with only a reference is written as the bare reference. */
module Caches {
  import opened Common
  import opened Texts
  import opened CsvLine
  import opened Csv

  datatype Cache = Cache(typ: string, attrs: map<string, string>)

  datatype Error = NotCsv | InvalidValue | TypeRequired

  const TYPE := "type"
  const REF := "ref"
  const REGISTRY := "registry"

  predicate IsBare(e: Cache) {
    e.typ == REGISTRY && e.attrs.Keys == {REF}
  }

  ghost function PairsOf(e: Cache): seq<Pair> {
    Head(e) + SortedPairs(e.attrs)
  }

  function Head(e: Cache): seq<Pair> {
    if e.typ != "" then [Pair(TYPE, e.typ)] else []
  }

  ghost function Printed(e: Cache): string {
    if IsBare(e) then e.attrs[REF] else Text(PairsOf(e))
  }

  function Others(m: map<string, string>): map<string, string> {
    map k | k in m && k != TYPE :: m[k]
  }

  function FromMap(m: map<string, string>): Cache {
    Cache(if TYPE in m then m[TYPE] else "", Others(m))
  }

  function Checked(m: Option<map<string, string>>): Result<Cache, Error> {
    match m
    case None => Err(InvalidValue)
    case Some(m) => if FromMap(m).typ == "" then Err(TypeRequired) else Ok(FromMap(m))
  }

  function Read(s: string): Result<Cache, Error> {
    match Fields(s)
    case None => Err(NotCsv)
    case Some(fs) => ReadFields(fs)
  }

  function ReadFields(fs: seq<string>): Result<Cache, Error> {
    if |fs| == 1 && EQ !in fs[0] then Ok(Bare(fs[0])) else Checked(Assigned(fs, ToLower))
  }

  function Bare(ref: string): Cache {
    Cache(REGISTRY, map[REF := ref])
  }

  /** A single field without an equals sign is a reference to a registry. */
  lemma ReferenceRead(s: string, ref: string)
    requires Fields(s) == Some([ref]) && EQ !in ref
    ensures Read(s) == Ok(Cache("registry", map["ref" := ref]))
  {
  }

  /** What the fields of a text make of an entry, and when they do not. */
  lemma ReadMeans(s: string, fs: seq<string>)
    requires Fields(s) == Some(fs) && !(|fs| == 1 && EQ !in fs[0])
    ensures var typ := LastValue(fs, ToLower, "type");
            (Read(s) == Err(InvalidValue) <==> exists i :: 0 <= i < |fs| && EQ !in fs[i]) &&
            (Read(s) == Err(TypeRequired) ==> typ.None? || typ == Some("")) &&
            (Read(s).Ok? ==> typ == Some(Read(s).value.typ) && Read(s).value.typ != "") && Read(s) != Err(NotCsv)
    ensures Read(s).Ok? ==> forall k :: Lookup(Read(s).value.attrs, k) == if k == "type" then None else LastValue(fs, ToLower, k)
  {
    AllPairs(fs, ToLower);
    if Assigned(fs, ToLower).Some? {
      ValueGiven(fs, ToLower, "type");
      forall k ensures Lookup(Assigned(fs, ToLower).value, k) == LastValue(fs, ToLower, k) {
        ValueGiven(fs, ToLower, k);
      }
    }
  }

  method Print(e: Cache) returns (s: string)
    ensures s == Printed(e)
  {
    if e.typ == REGISTRY && e.attrs.Keys == {REF} {
      return e.attrs[REF];
    }
    var b := new CsvBuilder();
    if e.typ != "" {
      b.Write(TYPE, e.typ);
    }
    assert b.written == Head(e);
    if |e.attrs| > 0 {
      b.WriteAttributes(e.attrs);
    } else {
      SortedNone(e.attrs);
    }
    assert b.written == Head(e) + SortedPairs(e.attrs);
    s := b.sb;
  }

  class CacheOptionsEntry {
    var typ: string
    var attrs: map<string, string>

    constructor ()
    {
      typ, attrs := "", map[];
    }

    function Value(): Cache
      reads this
    {
      Cache(typ, attrs)
    }

    method Set(key: string, value: string, ghost m: map<string, string>)
      requires Value() == FromMap(m)
      modifies this
      ensures Value() == FromMap(m[key := value])
    {
      if key == TYPE {
        typ := value;
      } else {
        attrs := attrs[key := value];
      }
      assert attrs == Others(m[key := value]);
    }

    method SetAll(fields: seq<string>) returns (ok: bool)
      requires Value() == FromMap(map[])
      modifies this
      ensures match Assigned(fields, ToLower) case None => !ok case Some(m) => ok && Value() == FromMap(m)
    {
      ghost var m: map<string, string> := map[];
      for i := 0 to |fields|
        invariant Assigned(fields[..i], ToLower) == Some(m) && Value() == FromMap(m)
      {
        assert fields[..i + 1][..i] == fields[..i];
        var parts := Cut(fields[i]);
        if parts.None? {
          AssignedStops(fields, i + 1, ToLower);
          return false;
        }
        var key := ToLower(parts.value.key);
        Set(key, parts.value.value, m);
        m := m[key := parts.value.value];
      }
      assert fields[..|fields|] == fields;
      return true;
    }

    method UnmarshalText(s: string) returns (err: Option<Error>)
      modifies this
      ensures match Read(s) case Ok(e) => err == None && Value() == e case Err(x) => err == Some(x)
    {
      var parsed := Fields(s);
      if parsed.None? {
        return Some(NotCsv);
      }
      var fields := parsed.value;
      if |fields| == 1 && EQ !in fields[0] {
        typ, attrs := REGISTRY, map[REF := fields[0]];
        return None;
      }
      typ, attrs := "", map[];
      assert Others(map[]) == map[];
      var ok := SetAll(fields);
      if !ok {
        return Some(InvalidValue);
      }
      if typ == "" {
        return Some(TypeRequired);
      }
      return None;
    }
  }

  /** The pairs of an entry survive being printed and read. */
  ghost predicate PlainEntry(e: Cache) {
    e.typ != "" && Free(e.typ) && PlainMap(e.attrs, ToLower) && TYPE !in e.attrs
  }

  /** A reference that is read as itself. */
  predicate PlainRef(ref: string) {
    ref != "" && EQ !in ref && COMMA !in ref && Simple(ref)
  }

  /** An entry that survives being printed and read. */
  ghost predicate Readable(e: Cache) {
    if IsBare(e) then PlainRef(e.attrs[REF]) else PlainEntry(e) && Simple(Printed(e))
  }

  lemma CheckedPlain(m: map<string, string>)
    requires PlainMap(m, ToLower) && FromMap(m).typ != ""
    ensures PlainEntry(FromMap(m))
  {
    assert TYPE in m ==> Plain(Pair(TYPE, m[TYPE]), ToLower);
    forall k | k in Others(m) ensures Plain(Pair(k, Others(m)[k]), ToLower) {
      assert Plain(Pair(k, m[k]), ToLower);
    }
  }

  lemma FieldsPlain(fs: seq<string>)
    requires forall i :: 0 <= i < |fs| ==> Free(fs[i])
    ensures var r := Checked(Assigned(fs, ToLower)); r.Ok? ==> PlainEntry(r.value)
  {
    var m := Assigned(fs, ToLower);
    if m.Some? && FromMap(m.value).typ != "" {
      assert Settles(ToLower) by { LowerSettles(); }
      AssignedPlain(fs, ToLower);
      CheckedPlain(m.value);
    }
  }

  /** A value that was read is shorter than the longest field. */
  lemma {:induction false} AssignedShorter(fs: seq<string>, n: nat)
    requires AllShort(fs, n) && Assigned(fs, ToLower).Some?
    ensures forall k :: k in Assigned(fs, ToLower).value ==> |Assigned(fs, ToLower).value[k]| < n
  {
    if fs != [] {
      AssignedShorter(fs[..|fs| - 1], n);
    }
  }

  /** A reference that is read as pairs is not read as itself. */
  lemma NotItself(s: string)
    requires Fields(s).Some?
    ensures var r := Checked(Assigned(Fields(s).value, ToLower)); r.Ok? && REF in r.value.attrs ==> r.value.attrs[REF] != s
  {
    FieldsShort(Stripped(s));
    if Assigned(Fields(s).value, ToLower).Some? {
      AssignedShorter(Fields(s).value, |s|);
    }
  }

  /** A reference that is a field of its own was not quoted and has no line break at its end. */
  lemma OwnField(s: string)
    requires Fields(s) == Some([s])
    ensures Simple(s) && s != "" && COMMA !in s
  {
    TotalOne(s, QUOTE);
    TotalOne(s, NL);
    NothingDropped(s);
    SimpleFields(s);
    SplitParts(s, COMMA);
  }

  lemma ReadBare(e: Cache)
    requires IsBare(e)
    ensures Read(Printed(e)) == Ok(e) <==> Readable(e)
  {
    var s := e.attrs[REF];
    assert e == Bare(s);
    if Fields(s).Some? {
      NotItself(s);
      var fs := Fields(s).value;
      if |fs| == 1 && EQ !in fs[0] && fs[0] == s {
        assert fs == [s];
        OwnField(s);
      }
    }
    if PlainRef(s) {
      SimpleFields(s);
      SplitFree(s, COMMA);
    }
  }

  lemma PairsPlain(e: Cache)
    requires PlainEntry(e)
    ensures AllPlain(PairsOf(e), ToLower)
  {
    NameSettled(TYPE);
    PlainBehind(Head(e), e.attrs, ToLower);
  }

  lemma PairsGive(e: Cache)
    requires PlainEntry(e)
    ensures FromMap(MapOf(PairsOf(e))) == e
  {
    MapOfConcat([Pair(TYPE, e.typ)], SortedPairs(e.attrs));
    MapOfSorted(e.attrs);
    assert MapOf([Pair(TYPE, e.typ)]) == map[TYPE := e.typ];
    assert Others(map[TYPE := e.typ] + e.attrs) == e.attrs;
  }

  lemma ReadPairs(e: Cache)
    requires PlainEntry(e) && Simple(Text(PairsOf(e)))
    ensures Read(Text(PairsOf(e))) == Ok(e)
  {
    PairsPlain(e);
    PairsGive(e);
    var ps := PairsOf(e);
    TextRead(ps, ToLower);
    assert FieldsOf(ps)[0] == Field(ps[0]) && EQ in Field(ps[0]);
  }

  lemma PairsDistinct(e: Cache)
    requires TYPE !in e.attrs
    ensures DistinctKeys(PairsOf(e))
  {
    DistinctBehind(Head(e), e.attrs);
  }

  lemma PairsAmong(m: map<string, string>, c: char)
    ensures Among(PairsOf(FromMap(m)), m, c)
  {
    AmongBehind(Head(FromMap(m)), Others(m), m, c);
  }

  /** An entry that is read from its own pairs was printed without anything that reading loses. */
  lemma ReadBack(e: Cache)
    requires !IsBare(e) && Read(Printed(e)) == Ok(e)
    ensures Simple(Printed(e))
  {
    var fs := Fields(Printed(e)).value;
    BareIsBare(fs[0]);
    if |fs| != 1 || EQ in fs[0] {
      var m := Assigned(fs, ToLower).value;
      PairsDistinct(e);
      PairsAmong(m, QUOTE);
      PairsAmong(m, NL);
      LowerSparing(QUOTE);
      LowerSparing(NL);
      ReadBackSimple(PairsOf(e), ToLower);
    }
  }

  lemma OnePart(s: string)
    requires |Split(s, COMMA)| == 1
    ensures Split(s, COMMA) == [s] && COMMA !in s
  {
    JoinedSplit(s, COMMA);
    SplitParts(s, COMMA);
  }

  lemma BareIsBare(ref: string)
    ensures IsBare(Bare(ref)) && Bare(ref).attrs[REF] == ref
  {
  }

  lemma ReadIsPlain(s: string)
    requires Simple(s)
    ensures Read(s).Ok? ==> PlainEntry(Read(s).value) || (IsBare(Read(s).value) && PlainRef(Read(s).value.attrs[REF]))
  {
    if s != "" {
      SimpleFields(s);
      SimpleParts(s);
      var fs := Split(s, COMMA);
      if |fs| == 1 && EQ !in fs[0] {
        OnePart(s);
        BareIsBare(s);
      } else {
        FieldsPlain(fs);
      }
    }
  }

  /** Printing and reading is the identity exactly on the readable entries. */
  lemma RoundTrip(e: Cache)
    ensures Read(Printed(e)) == Ok(e) <==> Readable(e)
  {
    if IsBare(e) {
      ReadBare(e);
    } else {
      if Read(Printed(e)) == Ok(e) {
        ReadBack(e);
        ReadIsPlain(Printed(e));
      }
      if Readable(e) {
        ReadPairs(e);
      }
    }
  }

  /** A text in which reading loses nothing. */
  predicate OneLine(s: string) {
    QUOTE !in s && NL !in s
  }

  /** What is read from such a text prints as one. */
  lemma PrintsOneLine(s: string)
    requires OneLine(s) && Fields(s).Some? && Checked(Assigned(Fields(s).value, ToLower)).Ok?
    ensures OneLine(Text(PairsOf(Checked(Assigned(Fields(s).value, ToLower)).value)))
  {
    var fs := Fields(s).value;
    var m := Assigned(fs, ToLower).value;
    var e := FromMap(m);
    PairsDistinct(e);
    forall c | Lossy(c) ensures c !in Text(PairsOf(e)) {
      PairsAmong(m, c);
      LowerSparing(c);
      AssignedCount(fs, ToLower, PairsOf(e), c);
      FieldsCount(Stripped(s), c);
      CountPrefix(s, StrippedLen(s), c);
      CountZero(s, c);
      CountText(PairsOf(e), c);
      CountZero(Text(PairsOf(e)), c);
    }
    assert Lossy(QUOTE) && Lossy(NL);
  }

  /**
   What was read from one line is read back, unless it is a registry entry with only
   a reference, and that is empty or has an equals sign.
   */
  lemma ReadAgain(s: string)
    requires OneLine(s)
    ensures Read(s).Ok? ==>
              var e := Read(s).value; Read(Printed(e)) == Ok(e) <==> !(IsBare(e) && (e.attrs[REF] == "" || EQ in e.attrs[REF]))
  {
    if Read(s).Ok? {
      var e, fs := Read(s).value, Fields(s).value;
      RoundTrip(e);
      ReadIsPlain(s);
      if |fs| != 1 || EQ in fs[0] {
        PrintsOneLine(s);
        ReferenceOneLine(e);
      }
    }
  }

  lemma ReferenceOneLine(e: Cache)
    requires OneLine(Text(PairsOf(e)))
    ensures REF in e.attrs ==> OneLine(e.attrs[REF])
  {
    if REF in e.attrs {
      var i := SortedAt(e.attrs, REF);
      var ps := PairsOf(e);
      var j := |ps| - |SortedPairs(e.attrs)| + i;
      assert ps[j] == SortedPairs(e.attrs)[i];
      ValueFree(ps, j, QUOTE);
      ValueFree(ps, j, NL);
    }
  }

  /** A registry reference with an equals sign, or an empty one, can be read but, once printed, not read back. */
  lemma BareReferenceLost(ref: string)
    requires (ref == "" || EQ in ref) && OneLine(ref) && COMMA !in ref
    ensures exists s: string :: Read(s) == Ok(Bare(ref)) && Read(Printed(Bare(ref))) != Read(s)
  {
    var e := Bare(ref);
    var s := Text(PairsOf(e));
    NamesFree();
    assert Plain(Pair(REF, ref), ToLower);
    PairsPlain(e);
    assert Simple(s) by {
      TextFree(PairsOf(e), ToLower);
      EndsWithReference(ref);
    }
    ReadPairs(e);
    RoundTrip(e);
  }

  lemma NamesFree()
    ensures ToLower(REF) == REF && EQ !in REF && Free(REF) && Free(REGISTRY) && REGISTRY != ""
  {
    NameSettled(REF);
    NameSettled(REGISTRY);
  }

  lemma EndsWithReference(ref: string)
    requires NL !in ref
    ensures var s := Text(PairsOf(Bare(ref)));
            s == Field(Pair(TYPE, REGISTRY)) + [COMMA] + Field(Pair(REF, ref)) && s != "" && s[|s| - 1] != NL
  {
    var t, p := [Pair(TYPE, REGISTRY)], Pair(REF, ref);
    SortedOnePair(REF, ref);
    assert PairsOf(Bare(ref)) == t + [p];
    TextOneMore(t, p);
    TextOneMore([], Pair(TYPE, REGISTRY));
    assert [] + t == t;
    LastOfField(p);
  }

  lemma LastOfField(p: Pair)
    requires NL !in p.value
    ensures Field(p)[|Field(p)| - 1] != NL
  {
    if p.value != "" {
      assert Field(p)[|Field(p)| - 1] == p.value[|p.value| - 1];
    }
  }
}
