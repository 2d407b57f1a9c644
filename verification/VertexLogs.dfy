/**
 The log of a build step arrives in chunks from several streams. It is put
 together into lines: a chunk may end in the middle of a line, which the next chunk
 of the same stream goes on with, while other streams come in between.
 */
module VertexLogs {
  import opened Common
  import opened Texts

  datatype Log = Log(vertex: string, stream: int, data: string)

  const NL := '\n'

  /** The lines of a text without the empty ones. */
  function Lines(t: string): seq<string> {
    NonEmpty(Split(t, NL))
  }

  /** The lines of a text grow with its last line while that is open. */
  lemma LinesOneMore(t: string, c: char)
    ensures c == NL ==> Lines(t + [c]) == Lines(t)
    ensures c != NL && !Open(t, NL) ==> Lines(t + [c]) == Lines(t) + [[c]]
    ensures Open(t, NL) ==> |Lines(t)| > 0
    ensures c != NL && Open(t, NL) ==> Lines(t + [c]) == Lines(t)[..|Lines(t)| - 1] + [Lines(t)[|Lines(t)| - 1] + [c]]
  {
    var u := t + [c];
    assert u[..|t|] == t;
    SplitParts(t, NL);
    var ps := Split(t, NL);
    if c == NL {
      assert (ps + [""])[..|ps|] == ps;
    } else {
      var qs := Split(u, NL);
      assert qs[..|qs| - 1] == ps[..|ps| - 1];
      if !Open(t, NL) {
        assert qs[|qs| - 1] == [c];
      }
    }
  }

  /** Lines as they stand: text, stream and, for each stream within a line, the index of that line. */
  datatype Board = Board(logs: seq<string>, owner: seq<int>, open: map<int, int>)

  const EMPTY := Board([], [], map[])

  ghost predicate WF(b: Board) {
    |b.owner| == |b.logs| &&
    forall s :: s in b.open ==> 0 <= b.open[s] < |b.logs| && b.owner[b.open[s]] == s
  }

  /** Taking one character of stream `s`. */
  function Put(b: Board, s: int, c: char): Board {
    if c == NL then b.(open := b.open - {s})
    else if s in b.open && 0 <= b.open[s] < |b.logs| then
      b.(logs := b.logs[b.open[s] := b.logs[b.open[s]] + [c]])
    else Board(b.logs + [[c]], b.owner + [s], b.open[s := |b.logs|])
  }

  function PutText(b: Board, s: int, t: string): Board {
    if t == "" then b else Put(PutText(b, s, t[..|t| - 1]), s, t[|t| - 1])
  }

  lemma {:induction false} PutTextWF(b: Board, s: int, t: string)
    requires WF(b)
    ensures WF(PutText(b, s, t))
  {
    if t != "" {
      PutTextWF(b, s, t[..|t| - 1]);
    }
  }

  lemma {:induction false} PutTextAppend(b: Board, s: int, t: string, u: string)
    ensures PutText(b, s, t + u) == PutText(PutText(b, s, t), s, u)
  {
    if u == "" {
      assert t + u == t;
    } else {
      assert (t + u)[..|t + u| - 1] == t + u[..|u| - 1];
      PutTextAppend(b, s, t, u[..|u| - 1]);
    }
  }

  /** A text without newline goes to the open line of its stream as a whole, or starts a new line. */
  lemma {:induction false} PutPlain(b: Board, s: int, p: string)
    requires WF(b) && NL !in p
    ensures s in b.open ==> PutText(b, s, p) == b.(logs := b.logs[b.open[s] := b.logs[b.open[s]] + p])
    ensures p == "" ==> PutText(b, s, p) == b
    ensures s !in b.open && p != "" ==> PutText(b, s, p) == Board(b.logs + [p], b.owner + [s], b.open[s := |b.logs|])
  {
    if p == "" {
      assert s in b.open ==> b.logs[b.open[s]] + p == b.logs[b.open[s]];
    } else {
      var q, c := p[..|p| - 1], p[|p| - 1];
      PutPlain(b, s, q);
      assert p == q + [c] && c != NL;
      if s in b.open {
        assert b.logs[b.open[s]] + q + [c] == b.logs[b.open[s]] + p;
      }
    }
  }

  /** An empty chunk ends the line its stream is in. */
  function Text(data: string): string {
    if data == "" then [NL] else data
  }

  /** All chunks of a vertex, taken character by character. */
  function Assembled(ls: seq<Log>, dgst: string): Board {
    if ls == [] then EMPTY
    else
      var before, l := Assembled(ls[..|ls| - 1], dgst), ls[|ls| - 1];
      if l.vertex == dgst then PutText(before, l.stream, Text(l.data)) else before
  }

  /** The loader's own state; an index of -1 means that the stream is not within a line. */
  datatype Held = Held(logs: seq<string>, last: map<int, int>)

  ghost predicate Safe(h: Held) {
    forall s :: s in h.last ==> -1 <= h.last[s] < |h.logs|
  }

  /** The treatment of one part of a chunk. */
  function PartAdded(h: Held, s: int, first: bool, final: bool, p: string): Held
    requires Safe(h)
  {
    var h1 :=
      if first && s in h.last && h.last[s] != -1 then h.(logs := h.logs[h.last[s] := h.logs[h.last[s]] + p])
      else
        var logs := if |p| > 0 then h.logs + [p] else h.logs;
        Held(logs, h.last[s := |logs| - 1]);
    if final && |p| == 0 then h1.(last := h1.last[s := -1]) else h1
  }

  ghost predicate Agree(h: Held, b: Board, s: int) {
    (s in b.open <==> s in h.last && h.last[s] != -1) && (s in b.open ==> h.last[s] == b.open[s])
  }

  ghost predicate Full(h: Held, b: Board) {
    h.logs == b.logs && WF(b) && Safe(h) && forall s :: Agree(h, b, s)
  }

  /** Within a chunk of stream `s` whose last part so far is `p`, the index of `s` may be meaningless. */
  ghost predicate Mid(h: Held, b: Board, s: int, p: string) {
    h.logs == b.logs && WF(b) && Safe(h) && (forall x :: x != s ==> Agree(h, b, x)) && (p != "" ==> Agree(h, b, s))
  }

  lemma FirstPart(h: Held, b: Board, s: int, final: bool, p: string)
    requires Full(h, b) && NL !in p
    ensures Mid(PartAdded(h, s, true, final, p), PutText(b, s, p), s, p)
    ensures final && p != "" ==> Full(PartAdded(h, s, true, final, p), PutText(b, s, p))
    ensures final && p == "" ==> Full(PartAdded(h, s, true, final, p), PutText(b, s, [NL]))
  {
    PutPlain(b, s, p);
    PutTextWF(b, s, p);
    var h' := PartAdded(h, s, true, final, p);
    assert Agree(h, b, s);
    forall x | x != s ensures Agree(h', PutText(b, s, p), x) {
      assert Agree(h, b, x);
    }
    if p == "" {
      assert [NL][..0] == "";
      assert PutText(b, s, [NL]) == Put(b, s, NL);
      assert s in b.open ==> h.logs[h.last[s]] + p == h.logs[h.last[s]];
      forall x | final ensures Agree(h', Put(b, s, NL), x) {
        assert Agree(h, b, x);
      }
    }
  }

  lemma NextPart(h: Held, b: Board, s: int, q: string, final: bool, p: string)
    requires Mid(h, b, s, q) && NL !in p
    ensures Mid(PartAdded(h, s, false, final, p), PutText(Put(b, s, NL), s, p), s, p)
    ensures final ==> Full(PartAdded(h, s, false, final, p), PutText(Put(b, s, NL), s, p))
  {
    var b1 := Put(b, s, NL);
    PutPlain(b1, s, p);
    PutTextWF(b1, s, p);
    var h' := PartAdded(h, s, false, final, p);
    forall x | x != s ensures Agree(h', PutText(b1, s, p), x) {
      assert Agree(h, b, x);
    }
  }

  /** The text of one more part. */
  lemma PutJoined(b: Board, s: int, ps: seq<string>, i: nat)
    requires 0 < i < |ps|
    ensures PutText(b, s, Joined(ps[..i + 1], NL)) == PutText(Put(PutText(b, s, Joined(ps[..i], NL)), s, NL), s, ps[i])
  {
    var t := Joined(ps[..i], NL);
    assert ps[..i + 1][..i] == ps[..i];
    assert Joined(ps[..i + 1], NL) == (t + [NL]) + ps[i];
    PutTextAppend(b, s, t + [NL], ps[i]);
    assert (t + [NL])[..|t|] == t;
  }

  /** After the first `i` parts of a chunk. */
  ghost predicate Progress(h: Held, b: Board, s: int, ps: seq<string>, i: nat)
    requires i <= |ps|
  {
    if i == 0 then Full(h, b)
    else
      Mid(h, PutText(b, s, Joined(ps[..i], NL)), s, ps[i - 1]) &&
      (i == |ps| ==> Full(h, PutText(b, s, Text(Joined(ps, NL)))))
  }

  lemma ProgressStep(h: Held, b: Board, s: int, ps: seq<string>, i: nat)
    requires i < |ps| && Progress(h, b, s, ps, i) && AllFree(ps, NL)
    ensures Safe(h) && Progress(PartAdded(h, s, i == 0, i == |ps| - 1, ps[i]), b, s, ps, i + 1)
  {
    var final := i == |ps| - 1;
    assert final ==> ps[..i + 1] == ps;
    if i == 0 {
      FirstPart(h, b, s, final, ps[0]);
      assert ps[..1] == [ps[0]];
    } else {
      NextPart(h, PutText(b, s, Joined(ps[..i], NL)), s, ps[i - 1], final, ps[i]);
      PutJoined(b, s, ps, i);
      assert |Joined(ps[..i + 1], NL)| > 0;
    }
  }

  class Loader {
    var logs: seq<string>
    var lastState: map<int, int>

    constructor ()
      ensures Full(State(), EMPTY)
    {
      logs := [];
      lastState := map[];
    }

    function State(): Held
      reads this
    {
      Held(logs, lastState)
    }

    method AddPart(s: int, first: bool, final: bool, p: string)
      requires Safe(State())
      modifies this
      ensures State() == PartAdded(old(State()), s, first, final, p)
    {
      var wrote := false;
      if first {
        if s in lastState && lastState[s] != -1 {
          var idx := lastState[s];
          logs := logs[idx := logs[idx] + p];
          wrote := true;
        }
      }
      if !wrote {
        if |p| > 0 {
          logs := logs + [p];
        }
        lastState := lastState[s := |logs| - 1];
      }
      if final && |p| == 0 {
        lastState := lastState[s := -1];
      }
    }

    /** Treating a chunk part by part is taking it character by character. */
    method AddChunk(s: int, data: string, ghost b: Board)
      requires Full(State(), b)
      modifies this
      ensures Full(State(), PutText(b, s, Text(data)))
    {
      var parts := Split(data, NL);
      JoinedSplit(data, NL);
      SplitParts(data, NL);
      for i := 0 to |parts|
        invariant Progress(State(), b, s, parts, i)
      {
        ProgressStep(State(), b, s, parts, i);
        AddPart(s, i == 0, i == |parts| - 1, parts[i]);
      }
    }

    /** All chunks that belong to the vertex; the last `limit` lines are kept. */
    method Load(ls: seq<Log>, dgst: string, limit: int)
      requires State() == Held([], map[])
      modifies this
      ensures var all := Assembled(ls, dgst).logs; logs == if 0 < limit < |all| then all[|all| - limit..] else all
    {
      for i := 0 to |ls|
        invariant Full(State(), Assembled(ls[..i], dgst))
      {
        assert ls[..i + 1][..i] == ls[..i];
        if ls[i].vertex == dgst {
          AddChunk(ls[i].stream, ls[i].data, Assembled(ls[..i], dgst));
        }
      }
      assert ls[..|ls|] == ls;
      if limit > 0 && |logs| > limit {
        logs := logs[|logs| - limit..];
      }
    }
  }

  /** The lines that belong to stream `s`, in order. */
  function Of(logs: seq<string>, owner: seq<int>, s: int): seq<string>
    requires |logs| == |owner|
  {
    if logs == [] then []
    else
      var n := |logs| - 1;
      if owner[n] == s then Of(logs[..n], owner[..n], s) + [logs[n]] else Of(logs[..n], owner[..n], s)
  }

  lemma OfOneMore(logs: seq<string>, owner: seq<int>, l: string, x: int, s: int)
    requires |logs| == |owner|
    ensures Of(logs + [l], owner + [x], s) == if x == s then Of(logs, owner, s) + [l] else Of(logs, owner, s)
  {
    assert (logs + [l])[..|logs|] == logs && (owner + [x])[..|logs|] == owner;
  }

  lemma {:induction false} OfOtherChanged(logs: seq<string>, owner: seq<int>, k: nat, l: string, s: int)
    requires |logs| == |owner| && k < |logs| && owner[k] != s
    ensures Of(logs[k := l], owner, s) == Of(logs, owner, s)
  {
    var n := |logs| - 1;
    if k == n {
      assert logs[k := l][..n] == logs[..n];
    } else {
      assert logs[k := l][..n] == logs[..n][k := l];
      OfOtherChanged(logs[..n], owner[..n], k, l, s);
    }
  }

  /** Changing the last line of a stream. */
  lemma {:induction false} OfLastChanged(logs: seq<string>, owner: seq<int>, k: nat, l: string, s: int)
    requires |logs| == |owner| && k < |logs| && owner[k] == s && forall i :: k < i < |owner| ==> owner[i] != s
    ensures var o := Of(logs, owner, s);
            |o| > 0 && o[|o| - 1] == logs[k] && Of(logs[k := l], owner, s) == o[..|o| - 1] + [l]
  {
    var n := |logs| - 1;
    if k == n {
      assert logs[k := l][..n] == logs[..n];
    } else {
      assert logs[k := l][..n] == logs[..n][k := l];
      OfLastChanged(logs[..n], owner[..n], k, l, s);
    }
  }

  /** The lines of stream `s` are those of its text `t`, and its last line is open when the text is. */
  ghost predicate Faithful(b: Board, t: string, s: int) {
    WF(b) && Of(b.logs, b.owner, s) == Lines(t) && (s in b.open <==> Open(t, NL)) &&
    (s in b.open ==> forall i :: b.open[s] < i < |b.owner| ==> b.owner[i] != s)
  }

  lemma PutSame(b: Board, t: string, s: int, c: char)
    requires Faithful(b, t, s)
    ensures Faithful(Put(b, s, c), t + [c], s)
  {
    if c == NL {
      PutNewline(b, t, s);
    } else if s in b.open {
      PutOpen(b, t, s, c);
    } else {
      PutNew(b, t, s, c);
    }
  }

  lemma PutNewline(b: Board, t: string, s: int)
    requires Faithful(b, t, s)
    ensures Faithful(Put(b, s, NL), t + [NL], s)
  {
    LinesOneMore(t, NL);
  }

  lemma PutOpen(b: Board, t: string, s: int, c: char)
    requires Faithful(b, t, s) && s in b.open && c != NL
    ensures Faithful(Put(b, s, c), t + [c], s)
  {
    var k := b.open[s];
    OfLastChanged(b.logs, b.owner, k, b.logs[k] + [c], s);
    LastLineGrows(t, c, Of(b.logs, b.owner, s));
  }

  lemma LastLineGrows(t: string, c: char, o: seq<string>)
    requires o == Lines(t) && Open(t, NL) && c != NL && o != []
    ensures o[..|o| - 1] + [o[|o| - 1] + [c]] == Lines(t + [c])
  {
    LinesOneMore(t, c);
  }

  lemma PutNew(b: Board, t: string, s: int, c: char)
    requires Faithful(b, t, s) && s !in b.open && c != NL
    ensures Faithful(Put(b, s, c), t + [c], s)
  {
    OfOneMore(b.logs, b.owner, [c], s, s);
    LineBegins(t, c, Of(b.logs, b.owner, s));
  }

  lemma LineBegins(t: string, c: char, o: seq<string>)
    requires o == Lines(t) && !Open(t, NL) && c != NL
    ensures o + [[c]] == Lines(t + [c])
  {
    LinesOneMore(t, c);
  }

  lemma PutOther(b: Board, t: string, s: int, x: int, c: char)
    requires Faithful(b, t, s) && x != s
    ensures Faithful(Put(b, x, c), t, s)
  {
    if c != NL {
      if x in b.open {
        var k := b.open[x];
        OfOtherChanged(b.logs, b.owner, k, b.logs[k] + [c], s);
      } else {
        OfOneMore(b.logs, b.owner, [c], x, s);
      }
    }
  }

  lemma {:induction false} PutTextFaithful(b: Board, t: string, s: int, x: int, u: string)
    requires Faithful(b, t, s)
    ensures Faithful(PutText(b, x, u), if x == s then t + u else t, s)
  {
    if u == "" {
      assert t + u == t;
    } else {
      var v, c := u[..|u| - 1], u[|u| - 1];
      PutTextFaithful(b, t, s, x, v);
      if x == s {
        PutSame(PutText(b, x, v), t + v, s, c);
        assert t + v + [c] == t + u;
      } else {
        PutOther(PutText(b, x, v), t, s, x, c);
      }
    }
  }

  /** The chunks of one stream of a vertex. */
  function Chunks(ls: seq<Log>, dgst: string, s: int): seq<string> {
    if ls == [] then []
    else
      var before, l := Chunks(ls[..|ls| - 1], dgst, s), ls[|ls| - 1];
      if l.vertex == dgst && l.stream == s then before + [l.data] else before
  }

  /** Chunks one after the other, with a newline for each empty one. */
  function Broken(ds: seq<string>): string {
    if ds == [] then "" else Broken(ds[..|ds| - 1]) + Text(ds[|ds| - 1])
  }

  function Plain(ds: seq<string>): string {
    if ds == [] then "" else Plain(ds[..|ds| - 1]) + ds[|ds| - 1]
  }

  /**
   However the streams interleave and wherever the chunks are cut, the lines of each
   stream are the non-empty lines of its own text.
   */
  lemma {:induction false} LinesOfEachStream(ls: seq<Log>, dgst: string, s: int)
    ensures Faithful(Assembled(ls, dgst), Broken(Chunks(ls, dgst, s)), s)
  {
    if ls == [] {
      assert Split("", NL) == [""] && NonEmpty([""]) == NonEmpty([]);
    } else {
      var t, l := ls[..|ls| - 1], ls[|ls| - 1];
      LinesOfEachStream(t, dgst, s);
      if l.vertex == dgst {
        var ds := Chunks(t, dgst, s);
        PutTextFaithful(Assembled(t, dgst), Broken(ds), s, l.stream, Text(l.data));
        assert (ds + [l.data])[..|ds|] == ds;
      }
    }
  }

  /** Between chunk `i`, which ends within a line, and chunk `j`, which goes on with it, come only empty chunks, at least one. */
  ghost predicate Breaks(ds: seq<string>, i: nat, j: nat) {
    i + 1 < j < |ds| && Open(ds[i], NL) && ds[j] != "" && ds[j][0] != NL && forall k :: i < k < j ==> ds[k] == ""
  }

  /** From `a` and `p` to `a2` and `p2`: the first gains one line over the second if they come apart, else equal lines stay equal. */
  ghost predicate Keeps(a: string, p: string, a2: string, p2: string, apart: bool) {
    |Lines(a2)| - |Lines(p2)| == |Lines(a)| - |Lines(p)| + (if apart then 1 else 0) &&
    (!apart && Lines(a) == Lines(p) ==> Lines(a2) == Lines(p2))
  }

  predicate Apart(a: string, p: string, c: char) {
    c != NL && Open(p, NL) && !Open(a, NL)
  }

  lemma BothGrowByOne(a: string, p: string, c: char)
    requires Open(a, NL) ==> Open(p, NL)
    ensures Keeps(a, p, a + [c], p + [c], Apart(a, p, c))
    ensures Open(a + [c], NL) == Open(p + [c], NL) == (c != NL)
  {
    LinesOneMore(a, c);
    LinesOneMore(p, c);
  }

  lemma KeepsThen(a: string, p: string, a2: string, p2: string, a3: string, p3: string, apart: bool)
    requires Keeps(a, p, a2, p2, apart) && Keeps(a2, p2, a3, p3, false)
    ensures Keeps(a, p, a3, p3, apart)
  {
  }

  /** Two texts that go on with the same characters. */
  lemma {:induction false} BothGrow(a: string, p: string, d: string)
    requires d != "" && (Open(a, NL) ==> Open(p, NL))
    ensures Keeps(a, p, a + d, p + d, Apart(a, p, d[0]))
    ensures Open(a + d, NL) == Open(p + d, NL) == Open(d, NL)
  {
    var c := d[|d| - 1];
    if |d| == 1 {
      assert d == [c];
      BothGrowByOne(a, p, c);
    } else {
      var e := d[..|d| - 1];
      BothGrow(a, p, e);
      BothGrowByOne(a + e, p + e, c);
      assert a + d == (a + e) + [c] && p + d == (p + e) + [c];
      KeepsThen(a, p, a + e, p + e, a + d, p + d, Apart(a, p, d[0]));
    }
  }

  /** The text ends within a line exactly when the last chunk that is not empty does. */
  ghost predicate EndsIn(ds: seq<string>, i: nat) {
    i < |ds| && Open(ds[i], NL) && forall k :: i < k < |ds| ==> ds[k] == ""
  }

  ghost predicate EndsWithin(ds: seq<string>) {
    exists i: nat :: EndsIn(ds, i)
  }

  lemma BrokenEnds(ds: seq<string>)
    ensures Open(Broken(ds), NL) <==> ds != [] && Open(ds[|ds| - 1], NL)
  {
  }

  lemma {:induction false} PlainEnds(ds: seq<string>)
    ensures Open(Plain(ds), NL) <==> EndsWithin(ds)
  {
    if ds != [] {
      var t, d := ds[..|ds| - 1], ds[|ds| - 1];
      PlainEnds(t);
      if d == "" {
        forall i: nat ensures EndsIn(ds, i) <==> EndsIn(t, i) {
        }
        assert Plain(ds) == Plain(t);
      } else {
        assert EndsIn(ds, |ds| - 1) <==> Open(d, NL);
        forall i: nat | i < |ds| - 1 ensures !EndsIn(ds, i) {
        }
      }
    }
  }

  /** Some empty chunk stands within a line. */
  ghost predicate Interrupted(ds: seq<string>) {
    exists i, j :: Breaks(ds, i, j)
  }

  lemma InterruptedOneMore(ds: seq<string>, d: string)
    ensures Interrupted(ds + [d]) <==>
            Interrupted(ds) || (d != "" && d[0] != NL && ds != [] && ds[|ds| - 1] == "" && EndsWithin(ds))
  {
    var es := ds + [d];
    forall i: nat, j: nat | j < |ds| ensures Breaks(es, i, j) <==> Breaks(ds, i, j) {
      BreaksBefore(ds, d, i, j);
    }
    forall i: nat | ds != [] ensures Breaks(es, i, |ds|) <==> d != "" && d[0] != NL && ds[|ds| - 1] == "" && EndsIn(ds, i) {
      BreaksAtEnd(ds, d, i);
    }
  }

  lemma BreaksBefore(ds: seq<string>, d: string, i: nat, j: nat)
    requires j < |ds|
    ensures Breaks(ds + [d], i, j) <==> Breaks(ds, i, j)
  {
    var es := ds + [d];
    assert forall k :: 0 <= k < |ds| ==> es[k] == ds[k];
  }

  lemma BreaksAtEnd(ds: seq<string>, d: string, i: nat)
    requires ds != []
    ensures Breaks(ds + [d], i, |ds|) <==> d != "" && d[0] != NL && ds[|ds| - 1] == "" && EndsIn(ds, i)
  {
    var es := ds + [d];
    assert es[|ds|] == d && forall k :: 0 <= k < |ds| ==> es[k] == ds[k];
    if EndsIn(ds, i) && ds[|ds| - 1] == "" {
      assert i != |ds| - 1;
    }
    if Breaks(es, i, |ds|) {
      assert es[|ds| - 1] == "";
    }
  }

  /**
   Empty chunks do no harm, that is, the lines are those of the plain text, exactly
   when none of them stands within a line.
   */
  lemma {:induction false} EmptyChunksHarmless(ds: seq<string>)
    ensures Lines(Broken(ds)) == Lines(Plain(ds)) <==> !Interrupted(ds)
    ensures |Lines(Broken(ds))| >= |Lines(Plain(ds))|
    ensures Interrupted(ds) ==> |Lines(Broken(ds))| > |Lines(Plain(ds))|
  {
    if ds != [] {
      var t, d := ds[..|ds| - 1], ds[|ds| - 1];
      EmptyChunksHarmless(t);
      assert ds == t + [d];
      InterruptedOneMore(t, d);
      if d == "" {
        LinesOneMore(Broken(t), NL);
        assert Plain(ds) == Plain(t);
      } else {
        PlainEnds(t);
        BrokenEnds(t);
        assert Open(Broken(t), NL) ==> EndsIn(t, |t| - 1);
        BothGrow(Broken(t), Plain(t), d);
        assert t != [] && t[|t| - 1] != "" && EndsWithin(t) ==> Open(t[|t| - 1], NL);
      }
    }
  }

  /** An empty chunk in the middle of a line breaks it in two. */
  lemma EmptyChunkBreaks()
    ensures exists ds: seq<string> :: Lines(Broken(ds)) != Lines(Plain(ds))
  {
    var ds := ["a", "", "b"];
    assert Breaks(ds, 0, 2);
    EmptyChunksHarmless(ds);
  }
}
