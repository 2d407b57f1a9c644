/**
 Slash-separated rooted paths as strings and as sequences of components.
 */
module Paths {
  import opened Common
  import opened Texts

  const SEP := '/'

  /** A name that can stand between two separators. */
  predicate Proper(c: string) {
    c != "" && SEP !in c
  }

  predicate AllProper(cs: seq<string>) {
    forall i :: 0 <= i < |cs| ==> Proper(cs[i])
  }

  /** The rooted path with these components. */
  function Render(cs: seq<string>): (p: string)
    ensures p != "" && p[0] == SEP
  {
    if cs == [] then [SEP]
    else if |cs| == 1 then [SEP] + cs[0]
    else Render(cs[..|cs| - 1]) + [SEP] + cs[|cs| - 1]
  }

  /** The components of a path; separators may be doubled or trailing. */
  function Comps(s: string): seq<string> {
    NonEmpty(Split(s, SEP))
  }

  /** A path without "." and ".." components; the parent of the root is the root. */
  function Norm(cs: seq<string>): seq<string> {
    if cs == [] then []
    else
      var n, c := Norm(cs[..|cs| - 1]), cs[|cs| - 1];
      if c == "." then n else if c == ".." then Up(n) else n + [c]
  }

  function Up(cs: seq<string>): seq<string> {
    if cs == [] then [] else cs[..|cs| - 1]
  }

  /** filepath.Clean of a rooted path. */
  function Clean(p: string): string {
    Render(Norm(Comps(p)))
  }

  lemma {:induction false} NonEmptyProper(ps: seq<string>)
    requires AllFree(ps, SEP)
    ensures AllProper(NonEmpty(ps))
  {
    if ps != [] {
      NonEmptyProper(ps[..|ps| - 1]);
    }
  }

  lemma CompsProper(s: string)
    ensures AllProper(Comps(s))
  {
    SplitParts(s, SEP);
    NonEmptyProper(Split(s, SEP));
  }

  lemma CompsAppend(s: string, c: string)
    requires Proper(c)
    ensures Comps(s + [SEP] + c) == Comps(s) + [c]
  {
    SplitPart(s, c, SEP);
    NonEmptyOneMore(Split(s, SEP), c);
  }

  /** Reading back the components of a rendered path. */
  lemma {:induction false} CompsRender(cs: seq<string>)
    requires AllProper(cs)
    ensures Comps(Render(cs)) == cs
  {
    CompsEmpty();
    if cs == [] {
      SplitPart("", "", SEP);
      assert "" + [SEP] + "" == [SEP];
      NonEmptyOneMore(Split("", SEP), "");
    } else {
      var t, c := cs[..|cs| - 1], cs[|cs| - 1];
      assert cs == t + [c];
      if |cs| == 1 {
        CompsAppend("", c);
        assert "" + [SEP] + c == [SEP] + c;
      } else {
        CompsRender(t);
        CompsAppend(Render(t), c);
      }
    }
  }

  lemma {:induction false} NormWithoutDots(cs: seq<string>)
    ensures forall i :: 0 <= i < |Norm(cs)| ==> Norm(cs)[i] != "." && Norm(cs)[i] != ".."
  {
    if cs != [] {
      NormWithoutDots(cs[..|cs| - 1]);
    }
  }

  lemma {:induction false} NormProper(cs: seq<string>)
    requires AllProper(cs)
    ensures AllProper(Norm(cs)) && forall i :: 0 <= i < |Norm(cs)| ==> Norm(cs)[i] != "." && Norm(cs)[i] != ".."
  {
    if cs != [] {
      NormProper(cs[..|cs| - 1]);
    }
  }

  lemma {:induction false} NormOfNormal(cs: seq<string>)
    requires forall i :: 0 <= i < |cs| ==> cs[i] != "." && cs[i] != ".."
    ensures Norm(cs) == cs
  {
    if cs != [] {
      NormOfNormal(cs[..|cs| - 1]);
      assert cs == cs[..|cs| - 1] + [cs[|cs| - 1]];
    }
  }

  lemma NormOneMore(cs: seq<string>, c: string)
    ensures Norm(cs + [c]) == if c == "." then Norm(cs) else if c == ".." then Up(Norm(cs)) else Norm(cs) + [c]
  {
    assert (cs + [c])[..|cs|] == cs;
  }

  lemma {:induction false} NormBehind(a: seq<string>, b: seq<string>, ds: seq<string>)
    requires Norm(a) == Norm(b)
    ensures Norm(a + ds) == Norm(b + ds)
  {
    if ds == [] {
      assert a + ds == a && b + ds == b;
    } else {
      var t, d := ds[..|ds| - 1], ds[|ds| - 1];
      NormBehind(a, b, t);
      NormOneMore(a + t, d);
      NormOneMore(b + t, d);
      InitLast(ds);
      ConcatAssoc(a, t, [d]);
      ConcatAssoc(b, t, [d]);
    }
  }

  /**
   The rules of cleaning, wherever they apply in a path: a name and the ".." behind it
   cancel out, a "." goes, and a ".." at the root goes.
   */
  lemma NormRules(cs: seq<string>, c: string, ds: seq<string>)
    requires c != "." && c != ".."
    ensures Norm(cs + [c] + [".."] + ds) == Norm(cs + ds)
    ensures Norm(cs + ["."] + ds) == Norm(cs + ds)
    ensures Norm([".."] + ds) == Norm(ds)
  {
    NormOneMore(cs, c);
    NormOneMore(cs + [c], "..");
    NormOneMore(cs, ".");
    NormOneMore([], "..");
    NormBehind(cs + [c] + [".."], cs, ds);
    NormBehind(cs + ["."], cs, ds);
    NormBehind([".."], [], ds);
    assert [] + [".."] == [".."] && [] + ds == ds;
  }

  lemma CompsOne(c: string)
    requires Proper(c)
    ensures Comps(c) == [c]
  {
    SplitFree(c, SEP);
    NonEmptyOneMore([], c);
    assert [] + [c] == [c];
  }

  lemma CompsBefore(c: string, q: string)
    requires Proper(c)
    ensures Comps(c + [SEP] + q) == [c] + Comps(q)
  {
    CompsConcat(c, q);
    CompsOne(c);
  }

  lemma CompsUpBehind(p: string, c: string, q: string)
    requires Proper(c)
    ensures Comps(p + [SEP] + (c + [SEP] + (".." + [SEP] + q))) == Comps(p) + [c] + [".."] + Comps(q)
  {
    var u := ".." + [SEP] + q;
    CompsBefore("..", q);
    CompsBefore(c, u);
    CompsConcat(p, c + [SEP] + u);
    ThreeParts(Comps(p), [c], [".."], Comps(q));
  }

  lemma ThreeParts(a: seq<string>, b: seq<string>, c: seq<string>, d: seq<string>)
    ensures a + (b + (c + d)) == a + b + c + d
  {
  }

  lemma CompsDotBehind(p: string, q: string)
    ensures Comps(p + [SEP] + ("." + [SEP] + q)) == Comps(p) + ["."] + Comps(q)
  {
    CompsBefore(".", q);
    CompsConcat(p, "." + [SEP] + q);
    assert Comps(p) + (["."] + Comps(q)) == Comps(p) + ["."] + Comps(q);
  }

  /** On texts: going into a name and up again changes nothing, nor does a dot, and there is nothing above the root. */
  lemma CleanRules(p: string, c: string, q: string)
    requires Proper(c) && c != "." && c != ".."
    ensures Clean(p + [SEP] + (c + [SEP] + (".." + [SEP] + q))) == Clean(p + [SEP] + q)
    ensures Clean(p + [SEP] + ("." + [SEP] + q)) == Clean(p + [SEP] + q)
    ensures Clean(".." + [SEP] + q) == Clean(q)
  {
    NormRules(Comps(p), c, Comps(q));
    CompsConcat(p, q);
    CompsUpBehind(p, c, q);
    CompsDotBehind(p, q);
    CompsBefore("..", q);
  }

  /** Cleaning twice is cleaning once. */
  lemma CleanIdempotent(p: string)
    ensures Clean(Clean(p)) == Clean(p)
  {
    CompsProper(p);
    NormProper(Comps(p));
    CompsRender(Norm(Comps(p)));
    NormOfNormal(Norm(Comps(p)));
  }

  /** The components in front of a separator and behind it are independent. */
  lemma CompsConcat(s: string, t: string)
    ensures Comps(s + [SEP] + t) == Comps(s) + Comps(t)
  {
    SplitConcat(s, t, SEP);
    NonEmptyConcat(Split(s, SEP), Split(t, SEP));
  }

  lemma CompsEmpty()
    ensures Comps("") == []
  {
    NonEmptyOneMore([], "");
    assert [] + [""] == Split("", SEP);
  }

  /** A trailing separator does not matter. */
  lemma CleanTrailing(s: string)
    ensures Clean(s + [SEP]) == Clean(s)
  {
    CompsConcat(s, "");
    CompsEmpty();
    assert s + [SEP] + "" == s + [SEP];
    assert Comps(s) + [] == Comps(s);
  }

  /** A path that cleaning does not change. */
  predicate IsClean(p: string) {
    Clean(p) == p
  }

  /** One path is above or equal to another when its components come first in it. */
  predicate Ancestor(c: string, p: string) {
    Comps(c) <= Comps(p)
  }

  lemma {:induction false} RenderLonger(a: seq<string>, b: seq<string>)
    requires a != [] && a < b
    ensures |Render(a)| + 1 <= |Render(b)| && Render(b)[..|Render(a)| + 1] == Render(a) + [SEP]
  {
    var t := b[..|b| - 1];
    var ra, rt, rb := Render(a), Render(t), Render(b);
    assert rb == rt + [SEP] + b[|b| - 1];
    if a != t {
      RenderLonger(a, t);
      assert rb[..|ra| + 1] == rt[..|ra| + 1];
    } else {
      assert rb[..|ra| + 1] == ra + [SEP];
    }
  }

  /** For clean paths: strictly above means that the path and a separator come first. */
  lemma AncestorByPrefix(c: string, p: string)
    requires IsClean(c) && IsClean(p) && c != [SEP]
    ensures Ancestor(c, p) <==> c == p || (|c| < |p| && p[..|c| + 1] == c + [SEP])
  {
    CleanIsRendered(c);
    CleanIsRendered(p);
    var a, b := Comps(c), Comps(p);
    assert a != [];
    if a <= b {
      if |a| < |b| {
        RenderLonger(a, b);
      } else {
        assert a == b;
      }
    }
    if |c| < |p| && p[..|c| + 1] == c + [SEP] {
      assert p == c + [SEP] + p[|c| + 1..];
      CompsConcat(c, p[|c| + 1..]);
    }
  }

  lemma CleanIsRendered(p: string)
    requires IsClean(p)
    ensures p == Render(Comps(p))
  {
    CompsProper(p);
    NormProper(Comps(p));
    CompsRender(Norm(Comps(p)));
  }
}
