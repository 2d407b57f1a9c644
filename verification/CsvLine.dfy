/**
 Cutting a line into its comma-separated fields, with quoted fields, as section 2 of
 RFC 4180 has it.
 */
module CsvLine {
  import opened Common
  import opened Texts

  const COMMA := ','
  const QUOTE := '"'
  const NL := '\n'
  const CR := '\r'

  /** The line without its trailing line break. */
  function Stripped(s: string): string {
    s[..StrippedLen(s)]
  }

  function StrippedLen(s: string): (k: nat)
    ensures k <= |s| && (k == |s| <==> s == "" || s[|s| - 1] != NL)
  {
    var n := |s|;
    if n == 0 || s[n - 1] != NL then n else if n > 1 && s[n - 2] == CR then n - 2 else n - 1
  }

  /** One line break falls off, with the carriage return in front of it. */
  lemma StrippedMeans(s: string)
    ensures Stripped(s + [CR] + [NL]) == s
    ensures s == "" || s[|s| - 1] != CR ==> Stripped(s + [NL]) == s
    ensures s == "" || s[|s| - 1] != NL ==> Stripped(s) == s
  {
  }

  /** What stands in front of the closing quote, two quotes standing for one, and what is left. */
  function Quoted(l: string): (r: Option<(string, string)>)
    ensures r.Some? ==> |r.value.1| < |l| && (r.value.1 == "" || r.value.1[0] == COMMA)
    decreases |l|
  {
    match CutAt(l, QUOTE)
    case None => None
    case Some((part, rest)) =>
      if rest == "" || rest[0] == COMMA then Some((part, rest))
      else if rest[0] != QUOTE then None
      else
        match Quoted(rest[1..])
        case None => None
        case Some((more, last)) => Some((part + [QUOTE] + more, last))
  }

  function ParseFields(l: string): (r: Option<seq<string>>)
    ensures r.Some? ==> |r.value| > 0
    decreases |l|
  {
    if l != "" && l[0] == QUOTE then
      match Quoted(l[1..])
      case None => None
      case Some((f, rest)) => if rest == "" then Some([f]) else After(f, ParseFields(rest[1..]))
    else
      match CutAt(l, COMMA)
      case None => if QUOTE in l then None else Some([l])
      case Some((f, rest)) => if QUOTE in f then None else After(f, ParseFields(rest))
  }

  function After(f: string, r: Option<seq<string>>): Option<seq<string>> {
    if r.None? then None else Some([f] + r.value)
  }

  /** The fields of a line; an empty line has none and is an error. */
  function Fields(s: string): Option<seq<string>> {
    if Stripped(s) == "" then None else ParseFields(Stripped(s))
  }

  /** There are no fields in an empty line. */
  lemma EmptyLine()
    ensures Fields("") == None && Fields([NL]) == None && Fields([CR] + [NL]) == None
  {
    assert Stripped([CR] + [NL]) == "";
  }

  /** A text with no quotes that does not end with a line break. */
  predicate Simple(s: string) {
    QUOTE !in s && (s != "" ==> s[|s| - 1] != NL)
  }

  lemma {:induction false} ParsePlain(l: string)
    requires QUOTE !in l
    ensures ParseFields(l) == Some(Split(l, COMMA))
    decreases |l|
  {
    match CutAt(l, COMMA)
    case None => SplitFree(l, COMMA);
    case Some((f, rest)) =>
      assert forall c :: c in f || c in rest ==> c in l;
      ParsePlain(rest);
      SplitConcat(f, rest, COMMA);
      SplitFree(f, COMMA);
  }

  /** The fields of a simple text stand between its commas. */
  lemma SimpleFields(s: string)
    requires Simple(s) && s != ""
    ensures Fields(s) == Some(Split(s, COMMA))
  {
    assert Stripped(s) == s;
    ParsePlain(s);
  }

  /** How often a character occurs in some texts. */
  function Total(fs: seq<string>, c: char): nat {
    if fs == [] then 0 else Total(fs[..|fs| - 1], c) + Count(fs[|fs| - 1], c)
  }

  lemma {:induction false} TotalCons(f: string, fs: seq<string>, c: char)
    ensures Total([f] + fs, c) == Count(f, c) + Total(fs, c)
  {
    if fs == [] {
      assert [f] + fs == [f] && [f][..0] == [];
    } else {
      assert ([f] + fs)[..|fs|] == [f] + fs[..|fs| - 1];
      TotalCons(f, fs[..|fs| - 1], c);
    }
  }

  lemma TotalOne(f: string, c: char)
    ensures Total([f], c) == Count(f, c)
  {
    assert [f][..0] == [];
  }

  lemma {:induction false} QuotedCount(l: string, c: char)
    requires Quoted(l).Some?
    ensures Count(Quoted(l).value.0, c) + Count(Quoted(l).value.1, c) + (if c == QUOTE then 1 else 0) <= Count(l, c)
    decreases |l|
  {
    var (part, rest) := CutAt(l, QUOTE).value;
    CountThree(part, QUOTE, rest, c);
    if rest != "" && rest[0] == QUOTE {
      QuotedCount(rest[1..], c);
      CountThree(part, QUOTE, Quoted(rest[1..]).value.0, c);
      CountFirst(rest, c);
    }
  }

  /** No character occurs more often in the fields than in the line, and quotes are lost. */
  lemma {:induction false} FieldsCount(l: string, c: char)
    requires ParseFields(l).Some?
    ensures Total(ParseFields(l).value, c) <= Count(l, c)
    ensures c == QUOTE && QUOTE in l ==> Total(ParseFields(l).value, c) < Count(l, c)
    decreases |l|
  {
    if l != "" && l[0] == QUOTE {
      QuotedStep(l, c);
      var (f, rest) := Quoted(l[1..]).value;
      if rest != "" {
        FieldsCount(rest[1..], c);
        TotalCons(f, ParseFields(rest[1..]).value, c);
      }
    } else if COMMA in l {
      var (f, rest) := CutAt(l, COMMA).value;
      FieldsCount(rest, c);
      TotalCons(f, ParseFields(rest).value, c);
      CountThree(f, COMMA, rest, c);
      assert QUOTE in l ==> QUOTE in rest;
    }
  }

  /** A quoted field, and the line behind the comma that follows it. */
  lemma QuotedStep(l: string, c: char)
    requires l != "" && l[0] == QUOTE && Quoted(l[1..]).Some?
    ensures var (f, rest) := Quoted(l[1..]).value;
            Count(f, c) + (if rest == "" then 0 else Count(rest[1..], c)) + (if c == QUOTE then 1 else 0) <= Count(l, c) &&
            (rest == "" ==> Total([f], c) == Count(f, c))
  {
    QuotedCount(l[1..], c);
    CountFirst(l, c);
    var (f, rest) := Quoted(l[1..]).value;
    TotalOne(f, c);
    if rest != "" {
      CountFirst(rest, c);
    }
  }

  /** If the fields of a line hold all its quotes and line breaks, the line is simple. */
  lemma NothingDropped(s: string)
    requires Fields(s).Some?
    requires Total(Fields(s).value, QUOTE) >= Count(s, QUOTE) && Total(Fields(s).value, NL) >= Count(s, NL)
    ensures Simple(s)
  {
    var l := Stripped(s);
    FieldsCount(l, QUOTE);
    FieldsCount(l, NL);
    StrippedCount(s);
    CountZero(s, QUOTE);
    CountZero(l, QUOTE);
  }

  lemma StrippedCount(s: string)
    ensures Count(Stripped(s), QUOTE) <= Count(s, QUOTE)
    ensures s != "" && s[|s| - 1] == NL ==> Count(Stripped(s), NL) < Count(s, NL)
  {
    CountPrefix(s, StrippedLen(s), QUOTE);
    if s != "" && s[|s| - 1] == NL {
      CountShorter(s, StrippedLen(s), NL);
    }
  }

  predicate AllShort(fs: seq<string>, n: nat) {
    forall i :: 0 <= i < |fs| ==> |fs[i]| <= n
  }

  /** A field is no longer than the line. */
  lemma {:induction false} FieldsShort(l: string)
    requires ParseFields(l).Some?
    ensures AllShort(ParseFields(l).value, |l|)
    decreases |l|
  {
    if l != "" && l[0] == QUOTE {
      QuotedShort(l[1..]);
      var (f, rest) := Quoted(l[1..]).value;
      if rest != "" {
        FieldsShort(rest[1..]);
        OneMoreShort(f, ParseFields(rest[1..]).value, |rest[1..]|, |l|);
      }
    } else if COMMA in l {
      var (f, rest) := CutAt(l, COMMA).value;
      FieldsShort(rest);
      OneMoreShort(f, ParseFields(rest).value, |rest|, |l|);
    }
  }

  lemma OneMoreShort(f: string, fs: seq<string>, k: nat, n: nat)
    requires AllShort(fs, k) && k <= n && |f| <= n
    ensures AllShort([f] + fs, n)
  {
  }

  lemma {:induction false} QuotedShort(l: string)
    requires Quoted(l).Some?
    ensures |Quoted(l).value.0| < |l|
    decreases |l|
  {
    var (part, rest) := CutAt(l, QUOTE).value;
    if rest != "" && rest[0] == QUOTE {
      QuotedShort(rest[1..]);
    }
  }

  /** A field between quotes. */
  lemma QuotedOne(f: string)
    requires QUOTE !in f
    ensures Fields([QUOTE] + f + [QUOTE]) == Some([f])
  {
    var s := [QUOTE] + f + [QUOTE];
    assert Stripped(s) == s;
    assert s[1..] == f + [QUOTE] + "";
    CutAtFirst(f, "", QUOTE);
  }
}
