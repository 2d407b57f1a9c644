/** Entries of the output setting, printed and read as comma-separated fields. */
module Exports {
  import opened Common
  import opened Texts
  import opened CsvLine
  import opened Csv

  datatype Export = Export(typ: string, dest: string, attrs: map<string, string>)

  datatype Error = NotCsv | InvalidValue | TypeRequired

  const TYPE := "type"
  const DEST := "dest"

  /** The pairs that are printed. */
  ghost function PairsOf(e: Export): seq<Pair> {
    Head(e) + SortedPairs(e.attrs)
  }

  function Head(e: Export): seq<Pair> {
    (if e.typ != "" then [Pair(TYPE, e.typ)] else []) + (if e.dest != "" then [Pair(DEST, e.dest)] else [])
  }

  ghost function Printed(e: Export): string {
    Text(PairsOf(e))
  }

  /** An entry from the values that were given. */
  function FromMap(m: map<string, string>): Export {
    Export(if TYPE in m then m[TYPE] else "", if DEST in m then m[DEST] else "", Others(m))
  }

  predicate Reserved(k: string) {
    k == TYPE || k == DEST
  }

  /** The values of the keys that have no meaning of their own. */
  function Others(m: map<string, string>): map<string, string> {
    map k | k in m && !Reserved(k) :: m[k]
  }

  predicate StartsWithType(s: string) {
    |s| >= 5 && s[..5] == "type="
  }

  /** A text that is a single field without a type is a destination. */
  function Read(s: string): Result<Export, Error> {
    match Fields(s)
    case None => Err(NotCsv)
    case Some(fs) => if IsDestination(fs, s) then Ok(Destination(s)) else Checked(Assigned(fs, TrimLower))
  }

  predicate IsDestination(fs: seq<string>, s: string) {
    |fs| == 1 && fs[0] == s && !StartsWithType(s)
  }

  function Destination(s: string): Export {
    Export(if s == "-" then "tar" else "local", s, map[])
  }

  function Checked(m: Option<map<string, string>>): Result<Export, Error> {
    match m
    case None => Err(InvalidValue)
    case Some(m) => if FromMap(m).typ == "" then Err(TypeRequired) else Ok(FromMap(m))
  }

  method Print(e: Export) returns (s: string)
    ensures s == Printed(e)
  {
    var b := new CsvBuilder();
    if e.typ != "" {
      b.Write(TYPE, e.typ);
    }
    if e.dest != "" {
      b.Write(DEST, e.dest);
    }
    assert b.written == Head(e);
    if |e.attrs| > 0 {
      b.WriteAttributes(e.attrs);
    } else {
      SortedNone(e.attrs);
    }
    assert b.written == Head(e) + SortedPairs(e.attrs);
    s := b.sb;
  }

  class ExportEntry {
    var typ: string
    var attrs: map<string, string>
    var destination: string

    constructor ()
    {
      typ, attrs, destination := "", map[], "";
    }

    function Value(): Export
      reads this
    {
      Export(typ, destination, attrs)
    }

    method Set(key: string, value: string, ghost m: map<string, string>)
      requires Value() == FromMap(m)
      modifies this
      ensures Value() == FromMap(m[key := value])
    {
      if key == TYPE {
        typ := value;
      } else if key == DEST {
        destination := value;
      } else {
        attrs := attrs[key := value];
      }
      assert attrs == Others(m[key := value]);
    }

    method SetAll(fields: seq<string>) returns (ok: bool)
      requires Value() == FromMap(map[])
      modifies this
      ensures match Assigned(fields, TrimLower) case None => !ok case Some(m) => ok && Value() == FromMap(m)
    {
      ghost var m: map<string, string> := map[];
      for i := 0 to |fields|
        invariant Assigned(fields[..i], TrimLower) == Some(m) && Value() == FromMap(m)
      {
        assert fields[..i + 1][..i] == fields[..i];
        var parts := Cut(fields[i]);
        if parts.None? {
          AssignedStops(fields, i + 1, TrimLower);
          return false;
        }
        var key := TrimLower(parts.value.key);
        Set(key, parts.value.value, m);
        m := m[key := parts.value.value];
      }
      assert fields[..|fields|] == fields;
      return true;
    }

    method UnmarshalText(s: string) returns (err: Option<Error>)
      modifies this
      ensures match Read(s) case Ok(e) => err == None && Value() == e case Err(x) => err == Some(x)
    {
      var parsed := Fields(s);
      if parsed.None? {
        return Some(NotCsv);
      }
      var fields := parsed.value;
      typ, attrs, destination := "", map[], "";
      if |fields| == 1 && fields[0] == s && !StartsWithType(s) {
        typ := if s != "-" then "local" else "tar";
        destination := s;
        return None;
      }
      assert Others(map[]) == map[];
      var ok := SetAll(fields);
      if !ok {
        return Some(InvalidValue);
      }
      if typ == "" {
        return Some(TypeRequired);
      }
      return None;
    }
  }

  /** Values and keys that survive being printed and read. */
  ghost predicate PlainEntry(e: Export) {
    e.typ != "" && Free(e.typ) && Free(e.dest) && PlainMap(e.attrs, TrimLower) && forall k :: k in e.attrs ==> !Reserved(k)
  }

  /** An entry that survives being printed and read: also, its text must not end with a line break. */
  ghost predicate Readable(e: Export) {
    PlainEntry(e) && Simple(Printed(e))
  }

  lemma CheckedPlain(m: map<string, string>)
    requires PlainMap(m, TrimLower) && FromMap(m).typ != ""
    ensures PlainEntry(FromMap(m))
  {
    assert TYPE in m ==> Plain(Pair(TYPE, m[TYPE]), TrimLower);
    assert DEST in m ==> Plain(Pair(DEST, m[DEST]), TrimLower);
    forall k | k in Others(m) ensures Plain(Pair(k, Others(m)[k]), TrimLower) {
      assert Plain(Pair(k, m[k]), TrimLower);
    }
  }

  lemma FieldsPlain(fs: seq<string>)
    requires forall i :: 0 <= i < |fs| ==> Free(fs[i])
    ensures var r := Checked(Assigned(fs, TrimLower)); r.Ok? ==> PlainEntry(r.value)
  {
    var m := Assigned(fs, TrimLower);
    if m.Some? && FromMap(m.value).typ != "" {
      assert Settles(TrimLower) by { TrimLowerSettles(); }
      AssignedPlain(fs, TrimLower);
      CheckedPlain(m.value);
    }
  }

  lemma DestinationPlain(s: string)
    requires Free(s)
    ensures PlainEntry(Destination(s))
  {
  }

  /** Whatever is read from a simple text is plain. */
  lemma ReadIsPlain(s: string)
    requires Simple(s)
    ensures Read(s).Ok? ==> PlainEntry(Read(s).value)
  {
    if s != "" {
      SimpleFields(s);
      SimpleParts(s);
      var fs := Split(s, COMMA);
      if IsDestination(fs, s) {
        DestinationPlain(s);
      } else {
        FieldsPlain(fs);
      }
    }
  }

  /** What the fields of a text make of an entry, and when they do not. */
  lemma ReadMeans(s: string, fs: seq<string>)
    requires Fields(s) == Some(fs) && !(|fs| == 1 && fs[0] == s && !StartsWithType(s))
    ensures var typ := LastValue(fs, TrimLower, "type");
            (Read(s) == Err(InvalidValue) <==> exists i :: 0 <= i < |fs| && EQ !in fs[i]) &&
            (Read(s) == Err(TypeRequired) ==> typ.None? || typ == Some("")) &&
            (Read(s).Ok? ==> typ == Some(Read(s).value.typ) && Read(s).value.typ != "") && Read(s) != Err(NotCsv)
    ensures Read(s).Ok? ==>
              var dest := LastValue(fs, TrimLower, "dest"); Read(s).value.dest == if dest.Some? then dest.value else ""
    ensures Read(s).Ok? ==>
              forall k :: Lookup(Read(s).value.attrs, k) == if k == "type" || k == "dest" then None else LastValue(fs, TrimLower, k)
  {
    AllPairs(fs, TrimLower);
    if Assigned(fs, TrimLower).Some? {
      ValueGiven(fs, TrimLower, "type");
      ValueGiven(fs, TrimLower, "dest");
      forall k ensures Lookup(Assigned(fs, TrimLower).value, k) == LastValue(fs, TrimLower, k) {
        ValueGiven(fs, TrimLower, k);
      }
    }
  }

  /** A line that is empty or badly quoted is no entry. */
  lemma NoFields(s: string)
    ensures Fields(s).None? <==> Read(s) == Err(NotCsv)
  {
  }

  /** A text without commas, quotes and a leading "type=" is a destination: standard output as an archive, else a directory. */
  lemma DestinationRead(s: string)
    requires s != "" && Simple(s) && COMMA !in s && !("type=" <= s)
    ensures Read(s) == Ok(if s == "-" then Export("tar", "-", map[]) else Export("local", s, map[]))
  {
    SimpleFields(s);
    SplitFree(s, COMMA);
    assert StartsWithType(s) ==> "type=" <= s;
  }

  /** Between quotes, every type with a comma can be read; printed, it is not read back. */
  lemma QuotedCommaLost(v: string)
    requires COMMA in v && QUOTE !in v
    ensures var s := [QUOTE] + Field(Pair(TYPE, v)) + [QUOTE];
            Read(s) == Ok(Export(v, "", map[])) && Read(Printed(Export(v, "", map[]))) != Read(s)
  {
    var f := Field(Pair(TYPE, v));
    KeysSettled();
    QuotedOne(f);
    assert |[QUOTE] + f + [QUOTE]| != |f|;
    ReadOne(Pair(TYPE, v), [QUOTE] + f + [QUOTE]);
    RoundTrip(Export(v, "", map[]));
  }

  lemma ReadOne(p: Pair, s: string)
    requires p.key == TYPE && p.value != "" && Fields(s) == Some([Field(p)]) && Field(p) != s && EQ !in TYPE
    ensures Read(s) == Ok(Export(p.value, "", map[]))
  {
    CutField(p);
    KeysSettled();
    assert [Field(p)][..0] == [];
    assert Assigned([Field(p)], TrimLower) == Some(map[TYPE := p.value]);
    assert Others(map[TYPE := p.value]) == map[];
  }

  lemma KeysSettled()
    ensures TrimLower(TYPE) == TYPE && EQ !in TYPE && Free(TYPE) && TrimLower(DEST) == DEST && EQ !in DEST && Free(DEST)
  {
    NameSettled(TYPE);
    NameSettled(DEST);
  }

  lemma PairsPlain(e: Export)
    requires PlainEntry(e)
    ensures AllPlain(PairsOf(e), TrimLower)
  {
    KeysSettled();
    PlainBehind(Head(e), e.attrs, TrimLower);
  }

  lemma PairsGive(e: Export)
    requires PlainEntry(e)
    ensures FromMap(MapOf(PairsOf(e))) == e
  {
    var a, d, ps := [Pair(TYPE, e.typ)], if e.dest != "" then [Pair(DEST, e.dest)] else [], SortedPairs(e.attrs);
    MapOfConcat(a + d, ps);
    MapOfConcat(a, d);
    MapOfSorted(e.attrs);
    assert MapOf(a) == map[TYPE := e.typ];
    assert MapOf(d) == if e.dest != "" then map[DEST := e.dest] else map[];
    assert PairsOf(e) == a + d + ps;
    OthersOfAll(e.typ, MapOf(d), e.attrs);
  }

  lemma OthersOfAll(typ: string, d: map<string, string>, attrs: map<string, string>)
    requires (forall k :: k in attrs ==> !Reserved(k)) && (forall k :: k in d ==> k == DEST)
    ensures FromMap(map[TYPE := typ] + d + attrs) == Export(typ, if DEST in d then d[DEST] else "", attrs)
  {
    assert Others(map[TYPE := typ] + d + attrs) == attrs;
  }

  lemma ReadPrinted(e: Export)
    requires Readable(e)
    ensures Read(Printed(e)) == Ok(e)
  {
    PrintedStarts(e);
    PairsPlain(e);
    TextRead(PairsOf(e), TrimLower);
    PairsGive(e);
  }

  lemma PairsDistinct(e: Export)
    requires forall k :: k in e.attrs ==> !Reserved(k)
    ensures DistinctKeys(PairsOf(e))
  {
    assert forall i :: 0 <= i < |Head(e)| ==> Reserved(Head(e)[i].key);
    DistinctBehind(Head(e), e.attrs);
  }

  lemma PairsAmong(m: map<string, string>, c: char)
    ensures Among(PairsOf(FromMap(m)), m, c)
  {
    AmongBehind(Head(FromMap(m)), Others(m), m, c);
  }

  /** An entry that is read from its own text was printed without anything that reading loses. */
  lemma ReadBack(e: Export)
    requires Read(Printed(e)) == Ok(e)
    ensures Simple(Printed(e))
  {
    var s := Printed(e);
    var fs := Fields(s).value;
    if IsDestination(fs, s) {
      PrintedStarts(e);
    } else {
      var m := Assigned(fs, TrimLower).value;
      PairsDistinct(e);
      PairsAmong(m, QUOTE);
      PairsAmong(m, NL);
      TrimLowerSparing(QUOTE);
      TrimLowerSparing(NL);
      ReadBackSimple(PairsOf(e), TrimLower);
    }
  }

  lemma PrintedStarts(e: Export)
    requires e.typ != ""
    ensures StartsWithType(Printed(e))
  {
    var rest := (if e.dest != "" then [Pair(DEST, e.dest)] else []) + SortedPairs(e.attrs);
    assert PairsOf(e) == [Pair(TYPE, e.typ)] + rest;
    TypeComesFirst(e.typ, rest);
  }

  lemma {:induction false} TypeComesFirst(typ: string, ps: seq<Pair>)
    ensures StartsWithType(Text([Pair(TYPE, typ)] + ps))
  {
    var all := [Pair(TYPE, typ)] + ps;
    if ps == [] {
      assert Text(all) == Field(all[0]) == "type=" + typ;
    } else {
      var t := ps[..|ps| - 1];
      TypeComesFirst(typ, t);
      assert all == ([Pair(TYPE, typ)] + t) + [ps[|ps| - 1]];
      TextOneMore([Pair(TYPE, typ)] + t, ps[|ps| - 1]);
    }
  }

  /** Printing and reading is the identity exactly on the readable entries. */
  lemma RoundTrip(e: Export)
    ensures Read(Printed(e)) == Ok(e) <==> Readable(e)
  {
    if Read(Printed(e)) == Ok(e) {
      ReadBack(e);
      ReadIsPlain(Printed(e));
    }
    if Readable(e) {
      ReadPrinted(e);
    }
  }

  /** So readable entries are equal exactly when they print alike. */
  lemma PrintedAlike(e: Export, f: Export)
    requires Readable(e) && Readable(f)
    ensures e == f <==> Printed(e) == Printed(f)
  {
    ReadPrinted(e);
    ReadPrinted(f);
  }
}
