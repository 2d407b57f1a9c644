/**
 Texts that are cut into parts at a separator character.
 */
module Texts {
  import opened Common

  /** The parts with some more text in the last one. */
  function Longer(ps: seq<string>, p: string): seq<string>
    requires |ps| > 0
  {
    ps[..|ps| - 1] + [ps[|ps| - 1] + p]
  }

  /** The parts of a text between its separators. */
  function Split(t: string, sep: char): (ps: seq<string>)
    ensures |ps| > 0
  {
    if t == "" then [""]
    else
      var before, c := Split(t[..|t| - 1], sep), t[|t| - 1];
      if c == sep then before + [""] else Longer(before, [c])
  }

  function Joined(ps: seq<string>, sep: char): string
    requires |ps| > 0
  {
    if |ps| == 1 then ps[0] else Joined(ps[..|ps| - 1], sep) + [sep] + ps[|ps| - 1]
  }

  /** The text ends within a part that is not empty. */
  predicate Open(t: string, sep: char) {
    t != "" && t[|t| - 1] != sep
  }

  predicate AllFree(ps: seq<string>, sep: char) {
    forall i :: 0 <= i < |ps| ==> sep !in ps[i]
  }

  lemma SplitOneMore(t: string, c: char, sep: char)
    ensures Split(t + [c], sep) == if c == sep then Split(t, sep) + [""] else Longer(Split(t, sep), [c])
  {
    assert (t + [c])[..|t|] == t;
  }

  /** Joining the parts gives the text back. */
  lemma {:induction false} JoinedSplit(t: string, sep: char)
    ensures Joined(Split(t, sep), sep) == t
  {
    if t != "" {
      var b, c := t[..|t| - 1], t[|t| - 1];
      JoinedSplit(b, sep);
      var ps, qs := Split(b, sep), Split(t, sep);
      assert t == b + [c];
      if c == sep {
        assert qs[..|qs| - 1] == ps;
        assert Joined(qs, sep) == b + [sep] + "";
      } else {
        JoinedLast(ps, c, sep);
      }
    }
  }

  lemma JoinedLast(ps: seq<string>, c: char, sep: char)
    requires |ps| > 0
    ensures Joined(Longer(ps, [c]), sep) == Joined(ps, sep) + [c]
  {
    var qs := Longer(ps, [c]);
    assert qs[..|qs| - 1] == ps[..|ps| - 1];
  }

  /** No part contains the separator, and the last is empty when the text is or ends with a separator. */
  lemma {:induction false} SplitParts(t: string, sep: char)
    ensures AllFree(Split(t, sep), sep)
    ensures Split(t, sep)[|Split(t, sep)| - 1] != "" <==> Open(t, sep)
  {
    if t != "" {
      SplitParts(t[..|t| - 1], sep);
    }
  }

  lemma LongerTwice(ps: seq<string>, p: string, q: string)
    requires |ps| > 0
    ensures Longer(Longer(ps, p), q) == Longer(ps, p + q)
  {
    assert ps[|ps| - 1] + p + q == ps[|ps| - 1] + (p + q);
  }

  /** A text without separator only makes the last part longer. */
  lemma {:induction false} SplitPlain(t: string, p: string, sep: char)
    requires sep !in p
    ensures Split(t + p, sep) == Longer(Split(t, sep), p)
  {
    var ps := Split(t, sep);
    if p == "" {
      assert t + p == t && ps[|ps| - 1] + p == ps[|ps| - 1];
    } else {
      var q, c := p[..|p| - 1], p[|p| - 1];
      SplitPlain(t, q, sep);
      assert p == q + [c] && t + p == t + q + [c];
      SplitOneMore(t + q, c, sep);
      LongerTwice(ps, q, [c]);
    }
  }

  /** One more separator and part. */
  lemma SplitPart(t: string, p: string, sep: char)
    requires sep !in p
    ensures Split(t + [sep] + p, sep) == Split(t, sep) + [p]
  {
    SplitOneMore(t, sep, sep);
    SplitPlain(t + [sep], p, sep);
    assert "" + p == p;
  }

  /** Parts that are free of the separator are read back from their joining. */
  lemma {:induction false} SplitJoined(ps: seq<string>, sep: char)
    requires |ps| > 0 && AllFree(ps, sep)
    ensures Split(Joined(ps, sep), sep) == ps
  {
    if |ps| == 1 {
      SplitPlain("", ps[0], sep);
      assert "" + ps[0] == ps[0];
    } else {
      var t := ps[..|ps| - 1];
      SplitJoined(t, sep);
      SplitPart(Joined(t, sep), ps[|ps| - 1], sep);
      assert ps == t + [ps[|ps| - 1]];
    }
  }

  /** The parts that are not empty, in order. */
  function NonEmpty(ps: seq<string>): seq<string> {
    if ps == [] then []
    else if ps[|ps| - 1] == "" then NonEmpty(ps[..|ps| - 1])
    else NonEmpty(ps[..|ps| - 1]) + [ps[|ps| - 1]]
  }

  lemma NonEmptyOneMore(ps: seq<string>, p: string)
    ensures NonEmpty(ps + [p]) == if p == "" then NonEmpty(ps) else NonEmpty(ps) + [p]
  {
    assert (ps + [p])[..|ps|] == ps;
  }

  /** The parts in front of a separator and behind it are independent. */
  lemma {:induction false} SplitConcat(t: string, u: string, sep: char)
    ensures Split(t + [sep] + u, sep) == Split(t, sep) + Split(u, sep)
  {
    var w := t + [sep];
    if u == "" {
      assert w + u == w;
      SplitOneMore(t, sep, sep);
    } else {
      var v, c := u[..|u| - 1], u[|u| - 1];
      SplitConcat(t, v, sep);
      assert w + u == (w + v) + [c] && u == v + [c];
      SplitConcatStep(w + v, v, c, sep, Split(t, sep));
    }
  }

  lemma SplitConcatStep(w: string, v: string, c: char, sep: char, a: seq<string>)
    requires Split(w, sep) == a + Split(v, sep)
    ensures Split(w + [c], sep) == a + Split(v + [c], sep)
  {
    SplitOneMore(w, c, sep);
    SplitOneMore(v, c, sep);
    SplitGrows(a, Split(v, sep), c);
  }

  lemma SplitGrows(a: seq<string>, b: seq<string>, c: char)
    requires |b| > 0
    ensures Longer(a + b, [c]) == a + Longer(b, [c])
    ensures (a + b) + [""] == a + (b + [""])
  {
  }

  lemma {:induction false} NonEmptyConcat(a: seq<string>, b: seq<string>)
    ensures NonEmpty(a + b) == NonEmpty(a) + NonEmpty(b)
  {
    if b == [] {
      assert a + b == a;
    } else {
      assert a + b == a + b[..|b| - 1] + [b[|b| - 1]];
      NonEmptyConcat(a, b[..|b| - 1]);
      NonEmptyOneMore(a + b[..|b| - 1], b[|b| - 1]);
    }
  }

  lemma {:induction false} NonEmptyElems(s: seq<string>)
    ensures forall x :: x in NonEmpty(s) <==> x in s && x != ""
    ensures |NonEmpty(s)| <= |s|
  {
    if s != [] {
      NonEmptyElems(s[..|s| - 1]);
      assert s == s[..|s| - 1] + [s[|s| - 1]];
    }
  }

  lemma {:induction false} NonEmptyAll(s: seq<string>)
    requires "" !in s
    ensures NonEmpty(s) == s
  {
    if s != [] {
      assert s[|s| - 1] in s;
      NonEmptyAll(s[..|s| - 1]);
    }
  }

  /** The position of the first `c` from `i` on, or the length. */
  function IndexFrom(s: string, c: char, i: nat): (k: nat)
    requires i <= |s|
    ensures i <= k <= |s| && (k < |s| ==> s[k] == c) && forall j :: i <= j < k ==> s[j] != c
    decreases |s| - i
  {
    if i == |s| || s[i] == c then i else IndexFrom(s, c, i + 1)
  }

  /** What stands in front of the first separator and behind it. */
  function CutAt(s: string, sep: char): (r: Option<(string, string)>)
    ensures r.None? <==> sep !in s
    ensures r.Some? ==> s == r.value.0 + [sep] + r.value.1 && sep !in r.value.0
  {
    var i := IndexFrom(s, sep, 0);
    if i == |s| then None else Some((s[..i], s[i + 1..]))
  }

  lemma CutAtFirst(a: string, b: string, sep: char)
    requires sep !in a
    ensures CutAt(a + [sep] + b, sep) == Some((a, b))
  {
    var s := a + [sep] + b;
    var i := IndexFrom(s, sep, 0);
    assert s[|a|] == sep;
    assert forall j :: 0 <= j < |a| ==> s[j] == a[j];
    assert i == |a|;
    assert s[..i] == a && s[i + 1..] == b;
  }

  lemma SplitFree(s: string, sep: char)
    requires sep !in s
    ensures Split(s, sep) == [s]
  {
    SplitPlain("", s, sep);
    assert "" + s == s;
  }

  /** How often a character occurs. */
  function Count(s: string, c: char): nat {
    if s == "" then 0 else Count(s[..|s| - 1], c) + if s[|s| - 1] == c then 1 else 0
  }

  lemma {:induction false} CountZero(s: string, c: char)
    ensures Count(s, c) == 0 <==> c !in s
  {
    if s != "" {
      CountZero(s[..|s| - 1], c);
      assert s == s[..|s| - 1] + [s[|s| - 1]];
    }
  }

  lemma {:induction false} CountConcat(a: string, b: string, c: char)
    ensures Count(a + b, c) == Count(a, c) + Count(b, c)
  {
    if b == "" {
      assert a + b == a;
    } else {
      assert (a + b)[..|a + b| - 1] == a + b[..|b| - 1];
      CountConcat(a, b[..|b| - 1], c);
    }
  }

  lemma CountThree(a: string, x: char, b: string, c: char)
    ensures Count(a + [x] + b, c) == Count(a, c) + (if x == c then 1 else 0) + Count(b, c)
  {
    CountConcat(a + [x], b, c);
    assert (a + [x])[..|a|] == a;
  }

  lemma CountFirst(s: string, c: char)
    requires s != ""
    ensures Count(s, c) == (if s[0] == c then 1 else 0) + Count(s[1..], c)
  {
    assert s == "" + [s[0]] + s[1..];
    CountThree("", s[0], s[1..], c);
  }

  lemma {:induction false} CountPrefix(s: string, k: nat, c: char)
    requires k <= |s|
    ensures Count(s[..k], c) <= Count(s, c)
  {
    if k == |s| {
      assert s[..k] == s;
    } else {
      assert s[..|s| - 1][..k] == s[..k];
      CountPrefix(s[..|s| - 1], k, c);
    }
  }

  lemma CountShorter(s: string, k: nat, c: char)
    requires k < |s| && s[|s| - 1] == c
    ensures Count(s[..k], c) < Count(s, c)
  {
    var t := s[..|s| - 1];
    CountPrefix(t, k, c);
    assert t[..k] == s[..k];
  }

  /** The truth values that strconv.ParseBool accepts. */
  function ParseBool(s: string): Option<bool> {
    if s in ["1", "t", "T", "TRUE", "true", "True"] then Some(true)
    else if s in ["0", "f", "F", "FALSE", "false", "False"] then Some(false)
    else None
  }

  /** Truth values are spelled as one letter or digit, or as a word in lower case, upper case or capitalised. */
  lemma ParseBoolMeans(s: string)
    ensures ParseBool(s) == Some(true) <==> s == "1" || s == "t" || s == "T" || s == "true" || s == "True" || s == "TRUE"
    ensures ParseBool(s) == Some(false) <==> s == "0" || s == "f" || s == "F" || s == "false" || s == "False" || s == "FALSE"
  {
    assert "1"[0] != "0"[0] && "1"[0] != "f"[0] && "1"[0] != "F"[0];
    assert "t"[0] != "0"[0] && "t"[0] != "f"[0] && "t"[0] != "F"[0];
    assert "T"[0] != "0"[0] && "T"[0] != "f"[0] && "T"[0] != "F"[0];
  }

  function Lower(c: char): char {
    if 'A' <= c <= 'Z' then c + ('a' - 'A') else c
  }

  function ToLower(s: string): (r: string)
    ensures |r| == |s| && forall i :: 0 <= i < |s| ==> r[i] == Lower(s[i])
  {
    seq(|s|, i requires 0 <= i < |s| => Lower(s[i]))
  }
}
