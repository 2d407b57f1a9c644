/**
 Standard output and standard error of a process travel as messages over one
 stream. Each has a sender that copies what it reads; one receiver hands the data
 to two writers.
 */
module StreamMux {
  import opened Common

  type Bytes = seq<bv8>

  datatype Message = File(fd: nat, data: Bytes, eof: bool) | Other

  datatype Error = UnsupportedFd(fd: nat) | UnexpectedMessage

  /** One call of a reader: the bytes it returned and its error. */
  datatype ReadError = NoError | EndOfFile | Failed
  datatype Read = Read(data: Bytes, err: ReadError)

  /** The reader has returned an error. */
  predicate Stopped(rs: seq<Read>) {
    exists i :: 0 <= i < |rs| && rs[i].err != NoError
  }

  /** The reader's first error is the end of its file. */
  ghost predicate EndsInFile(rs: seq<Read>) {
    exists i :: 0 <= i < |rs| && rs[i].err == EndOfFile && !Stopped(rs[..i])
  }

  lemma EndsOneMore(rs: seq<Read>, r: Read)
    ensures EndsInFile(rs + [r]) <==> EndsInFile(rs) || (!Stopped(rs) && r.err == EndOfFile)
  {
    var s := rs + [r];
    assert forall i :: 0 <= i <= |rs| ==> s[..i] == rs[..i];
    assert s[..|rs|] == rs && s[|rs|] == r;
  }

  lemma EndsStops(rs: seq<Read>)
    ensures EndsInFile(rs) ==> Stopped(rs)
  {
  }

  /** What a sender puts on the stream for the reads it makes. */
  function Sent(fd: nat, rs: seq<Read>): seq<Message> {
    if rs == [] then []
    else
      var before, r := Sent(fd, rs[..|rs| - 1]), rs[|rs| - 1];
      if Stopped(rs[..|rs| - 1]) then before
      else
        match r.err
        case EndOfFile => before + [File(fd, [], true)]
        case Failed => before
        case NoError => if |r.data| > 0 then before + [File(fd, r.data, false)] else before
  }

  /** Reads after the first error are never made. */
  lemma {:induction false} SentStops(fd: nat, rs: seq<Read>, i: nat)
    requires i <= |rs| && Stopped(rs[..i])
    ensures Stopped(rs) && Sent(fd, rs) == Sent(fd, rs[..i])
    decreases |rs|
  {
    if i == |rs| {
      assert rs[..i] == rs;
    } else {
      var t := rs[..|rs| - 1];
      assert t[..i] == rs[..i];
      SentStops(fd, t, i);
      StoppedOneMore(t, rs[|rs| - 1]);
      assert rs == t + [rs[|rs| - 1]];
    }
  }

  /** The first error stays the first. */
  lemma EndsAsBefore(rs: seq<Read>, i: nat)
    requires i <= |rs| && Stopped(rs[..i])
    ensures EndsInFile(rs) <==> EndsInFile(rs[..i])
  {
    var p := rs[..i];
    assert forall k :: 0 <= k <= i ==> p[..k] == rs[..k];
    if k :| 0 <= k < |rs| && rs[k].err == EndOfFile && !Stopped(rs[..k]) {
      if k >= i { StoppedLonger(rs, i, k); }
      assert p[k] == rs[k] && !Stopped(p[..k]);
    }
    if k :| 0 <= k < |p| && p[k].err == EndOfFile && !Stopped(p[..k]) {
      assert rs[k].err == EndOfFile && !Stopped(rs[..k]);
    }
  }

  lemma StoppedLonger(rs: seq<Read>, i: nat, k: nat)
    requires i <= k <= |rs| && Stopped(rs[..i])
    ensures Stopped(rs[..k])
  {
    var j :| 0 <= j < i && rs[..i][j].err != NoError;
    assert rs[..k][j] == rs[..i][j];
  }

  lemma StoppedOneMore(rs: seq<Read>, r: Read)
    ensures Stopped(rs + [r]) <==> Stopped(rs) || r.err != NoError
  {
    var s := rs + [r];
    assert s[|rs|] == r;
    assert forall i :: 0 <= i < |rs| ==> s[i] == rs[i];
  }

  /** The sender's loop; `failed` says whether it stopped on a read error. */
  method CopyToStream(fd: nat, rs: seq<Read>) returns (sent: seq<Message>, failed: bool)
    ensures sent == Sent(fd, rs)
    ensures failed <==> Stopped(rs) && !EndsInFile(rs)
  {
    sent, failed := [], false;
    for i := 0 to |rs|
      invariant sent == Sent(fd, rs[..i]) && !Stopped(rs[..i]) && !failed
    {
      assert rs[..i + 1][..i] == rs[..i] && rs[..i + 1] == rs[..i] + [rs[i]];
      StoppedOneMore(rs[..i], rs[i]);
      EndsStops(rs[..i]);
      EndsOneMore(rs[..i], rs[i]);
      if rs[i].err != NoError {
        if rs[i].err == EndOfFile {
          sent := sent + [File(fd, [], true)];
        } else {
          failed := true;
        }
        SentStops(fd, rs, i + 1);
        EndsAsBefore(rs, i + 1);
        return;
      } else if |rs[i].data| > 0 {
        sent := sent + [File(fd, rs[i].data, false)];
      }
    }
    assert rs[..|rs|] == rs;
  }

  /** Everything the reader returned up to its first error. */
  function BytesRead(rs: seq<Read>): Bytes {
    if rs == [] then []
    else if Stopped(rs[..|rs| - 1]) then BytesRead(rs[..|rs| - 1])
    else BytesRead(rs[..|rs| - 1]) + rs[|rs| - 1].data
  }

  /** The bytes that came together with the reader's first error. */
  function LastBytes(rs: seq<Read>): Bytes {
    if rs == [] then []
    else if Stopped(rs[..|rs| - 1]) then LastBytes(rs[..|rs| - 1])
    else if rs[|rs| - 1].err != NoError then rs[|rs| - 1].data
    else []
  }

  ghost predicate Ended(fd: nat, ms: seq<Message>) {
    exists i :: 0 <= i < |ms| && ms[i].File? && ms[i].fd == fd && ms[i].eof
  }

  /** The data of `fd` in a message sequence, up to its end of file. */
  ghost function Payload(fd: nat, ms: seq<Message>): Bytes {
    if ms == [] then []
    else
      var before, m := ms[..|ms| - 1], ms[|ms| - 1];
      if m.File? && m.fd == fd && !Ended(fd, before) then Payload(fd, before) + m.data else Payload(fd, before)
  }

  lemma PayloadOneMore(fd: nat, ms: seq<Message>, m: Message)
    ensures Payload(fd, ms + [m]) == if m.File? && m.fd == fd && !Ended(fd, ms) then Payload(fd, ms) + m.data else Payload(fd, ms)
    ensures Ended(fd, ms + [m]) <==> Ended(fd, ms) || (m.File? && m.fd == fd && m.eof)
  {
    var r := ms + [m];
    assert r[..|ms|] == ms && r[|ms|] == m;
    assert forall i :: 0 <= i < |ms| ==> r[i] == ms[i];
  }

  lemma {:induction false} PayloadPrefix(fd: nat, ms: seq<Message>, k: nat)
    requires k <= |ms|
    ensures Payload(fd, ms[..k]) <= Payload(fd, ms)
  {
    if k == |ms| {
      assert ms[..k] == ms;
    } else {
      var t := ms[..|ms| - 1];
      assert t[..k] == ms[..k];
      PayloadPrefix(fd, t, k);
    }
  }

  /** The messages of one descriptor. */
  function Only(fd: nat, ms: seq<Message>): seq<Message> {
    if ms == [] then []
    else
      var before, m := Only(fd, ms[..|ms| - 1]), ms[|ms| - 1];
      if m.File? && m.fd == fd then before + [m] else before
  }

  lemma OnlyOneMore(fd: nat, ms: seq<Message>, m: Message)
    ensures Only(fd, ms + [m]) == if m.File? && m.fd == fd then Only(fd, ms) + [m] else Only(fd, ms)
  {
    assert (ms + [m])[..|ms|] == ms;
  }

  /** Whether a descriptor has ended, and its data, depend on its own messages only. */
  lemma {:induction false} PayloadOfOnly(fd: nat, ms: seq<Message>)
    ensures Ended(fd, Only(fd, ms)) <==> Ended(fd, ms)
    ensures Payload(fd, Only(fd, ms)) == Payload(fd, ms)
  {
    if ms != [] {
      var t, m := ms[..|ms| - 1], ms[|ms| - 1];
      PayloadOfOnly(fd, t);
      assert ms == t + [m];
      PayloadOneMore(fd, t, m);
      PayloadOneMore(fd, Only(fd, t), m);
    }
  }

  /**
   What a sender sends carries the bytes it read, but for the bytes of the read
   that ended it. It tells the end of the file exactly when there was one.
   */
  lemma {:induction false} SentCarries(fd: nat, rs: seq<Read>)
    ensures Payload(fd, Sent(fd, rs)) + LastBytes(rs) == BytesRead(rs)
    ensures forall m :: m in Sent(fd, rs) ==> m.File? && m.fd == fd
    ensures Ended(fd, Sent(fd, rs)) <==> EndsInFile(rs)
    ensures LastBytes(rs) != [] ==> Stopped(rs)
  {
    if rs != [] {
      var t, r := rs[..|rs| - 1], rs[|rs| - 1];
      SentCarries(fd, t);
      assert rs == t + [r];
      StoppedOneMore(t, r);
      EndsOneMore(t, r);
      EndsStops(t);
      if !Stopped(t) {
        SentOneMore(fd, t, r);
        assert LastBytes(t) == [] && Payload(fd, Sent(fd, t)) + [] == Payload(fd, Sent(fd, t));
      }
    }
  }

  /** What one more read adds to the data that is sent. */
  lemma SentOneMore(fd: nat, t: seq<Read>, r: Read)
    requires !Stopped(t) && !Ended(fd, Sent(fd, t))
    ensures Payload(fd, Sent(fd, t + [r])) == Payload(fd, Sent(fd, t)) + if r.err == NoError then r.data else []
    ensures Ended(fd, Sent(fd, t + [r])) <==> r.err == EndOfFile
  {
    assert (t + [r])[..|t|] == t;
    PayloadOneMore(fd, Sent(fd, t), File(fd, [], true));
    PayloadOneMore(fd, Sent(fd, t), File(fd, r.data, false));
    assert Payload(fd, Sent(fd, t)) + [] == Payload(fd, Sent(fd, t));
  }

  /** So nothing is lost exactly when the ending read came without data. */
  lemma NothingLost(fd: nat, rs: seq<Read>)
    ensures Payload(fd, Sent(fd, rs)) <= BytesRead(rs)
    ensures Payload(fd, Sent(fd, rs)) == BytesRead(rs) <==> LastBytes(rs) == []
  {
    SentCarries(fd, rs);
    assert |BytesRead(rs)| == |Payload(fd, Sent(fd, rs))| + |LastBytes(rs)|;
  }

  /** A reader other than a pipe may return its last byte together with the end of file; that byte would not be sent. */
  lemma LastByteLost()
    ensures exists fd: nat, rs: seq<Read> :: Payload(fd, Sent(fd, rs)) != BytesRead(rs)
  {
    var rs := [Read([7], EndOfFile)];
    assert rs[..0] == [];
    assert LastBytes(rs) == [7];
    NothingLost(1, rs);
  }

  /** A pipe, which is what every sender reads from, returns an error without data. */
  predicate FromPipe(rs: seq<Read>) {
    forall i :: 0 <= i < |rs| && rs[i].err != NoError ==> rs[i].data == []
  }

  lemma {:induction false} PipeEndsClean(rs: seq<Read>)
    requires FromPipe(rs)
    ensures LastBytes(rs) == []
  {
    if rs != [] {
      PipeEndsClean(rs[..|rs| - 1]);
    }
  }

  /** From a pipe a sender sends exactly the bytes it reads. */
  lemma PipeLosesNothing(fd: nat, rs: seq<Read>)
    requires FromPipe(rs)
    ensures Payload(fd, Sent(fd, rs)) == BytesRead(rs)
  {
    PipeEndsClean(rs);
    NothingLost(fd, rs);
  }

  /** The receiver's writers, absent ones as None, and the descriptors whose end it has seen. */
  datatype Sink = Sink(stdout: Option<Bytes>, stderr: Option<Bytes>, eofs: set<nat>) {
    function Writer(fd: nat): Option<Bytes> {
      if fd == 1 then stdout else if fd == 2 then stderr else None
    }
  }

  predicate Acceptable(m: Message) {
    m.File? && (m.fd == 1 || m.fd == 2)
  }

  /** The writer of `fd` got its own data up to its end of file, and nothing after it. */
  ghost predicate Delivered(start: Sink, ms: seq<Message>, s: Sink, fd: nat) {
    (start.Writer(fd).None? ==> s.Writer(fd).None? && fd !in s.eofs) &&
    (start.Writer(fd).Some? ==>
       s.Writer(fd) == Some(start.Writer(fd).value + Payload(fd, ms)) && (fd in s.eofs <==> Ended(fd, ms)))
  }

  ghost predicate AllDelivered(start: Sink, ms: seq<Message>, s: Sink) {
    forall fd: nat :: Delivered(start, ms, s, fd)
  }

  /** The receiver's reaction to one message. */
  function Received(s: Sink, m: Message): (Sink, Option<Error>) {
    if !m.File? then (s, Some(UnexpectedMessage))
    else if m.fd in s.eofs then (s, None)
    else if m.fd != 1 && m.fd != 2 then (s, Some(UnsupportedFd(m.fd)))
    else if s.Writer(m.fd).None? then (s, None)
    else
      var w := Some(s.Writer(m.fd).value + m.data);
      ((if m.fd == 1 then s.(stdout := w) else s.(stderr := w)).(eofs := if m.eof then s.eofs + {m.fd} else s.eofs), None)
  }

  lemma NothingDelivered(s: Sink)
    requires s.eofs == {}
    ensures AllDelivered(s, [], s)
  {
    forall fd: nat ensures Delivered(s, [], s, fd) {
      assert s.Writer(fd).Some? ==> s.Writer(fd).value + [] == s.Writer(fd).value;
    }
  }

  /** The receiver goes on exactly after acceptable messages, and then delivers them. */
  lemma OneMoreDelivered(start: Sink, ms: seq<Message>, s: Sink, m: Message)
    requires AllDelivered(start, ms, s)
    ensures Received(s, m).1.None? <==> Acceptable(m)
    ensures Acceptable(m) ==> AllDelivered(start, ms + [m], Received(s, m).0)
    ensures !Acceptable(m) ==> Received(s, m).0 == s
  {
    if m.File? {
      assert Delivered(start, ms, s, m.fd);
    }
    if Acceptable(m) {
      forall fd: nat ensures Delivered(start, ms + [m], Received(s, m).0, fd) {
        assert Delivered(start, ms, s, fd);
        PayloadOneMore(fd, ms, m);
        if start.Writer(fd).Some? {
          assert start.Writer(fd).value + (Payload(fd, ms) + m.data) == start.Writer(fd).value + Payload(fd, ms) + m.data;
        }
      }
    }
  }

  class Receiver {
    var sink: Sink

    constructor (stdout: bool, stderr: bool)
      ensures sink == Sink(if stdout then Some([]) else None, if stderr then Some([]) else None, {})
    {
      sink := Sink(if stdout then Some([]) else None, if stderr then Some([]) else None, {});
    }

    method Handle(m: Message) returns (err: Option<Error>)
      modifies this
      ensures (sink, err) == Received(old(sink), m)
    {
      if !m.File? {
        return Some(UnexpectedMessage);
      }
      if m.fd in sink.eofs {
        return None;
      }
      var out;
      if m.fd == 1 {
        out := sink.stdout;
      } else if m.fd == 2 {
        out := sink.stderr;
      } else {
        return Some(UnsupportedFd(m.fd));
      }
      if out.None? {
        return None;
      }
      if |m.data| > 0 {
        var w := Some(out.value + m.data);
        sink := if m.fd == 1 then sink.(stdout := w) else sink.(stderr := w);
      } else {
        assert out.value + m.data == out.value;
      }
      if m.eof {
        sink := sink.(eofs := sink.eofs + {m.fd});
      }
      return None;
    }

    /** The receiver's loop: it takes the `n` messages in front of the first one it does not accept. */
    method Demux(ms: seq<Message>) returns (n: nat, err: Option<Error>)
      requires sink.eofs == {}
      modifies this
      ensures n <= |ms| && (forall i :: 0 <= i < n ==> Acceptable(ms[i])) && (n < |ms| ==> !Acceptable(ms[n]))
      ensures AllDelivered(old(sink), ms[..n], sink)
      ensures err.None? <==> n == |ms|
    {
      NothingDelivered(sink);
      n := 0;
      while n < |ms|
        invariant n <= |ms| && forall i :: 0 <= i < n ==> Acceptable(ms[i])
        invariant AllDelivered(old(sink), ms[..n], sink)
      {
        OneMoreDelivered(old(sink), ms[..n], sink, ms[n]);
        assert ms[..n + 1] == ms[..n] + [ms[n]];
        err := Handle(ms[n]);
        if err.Some? {
          return;
        }
        n := n + 1;
      }
      err := None;
    }
  }

  /**
   Two senders, the stream and the receiver. `log` holds all messages ever put on
   the stream, of which the receiver has taken the first `taken`; `sent` counts the
   messages each sender has sent of those it has to send. A sender whose input is
   closed early, one in `cut`, has sent an end of file instead of the rest.
   */
  datatype State = State(log: seq<Message>, taken: nat, sent: map<nat, nat>, cut: set<nat>, sink: Sink)

  datatype Step = Send(fd: nat) | Take | Cut(fd: nat)

  /** What the readers of the two senders return. */
  datatype Inputs = Inputs(out: seq<Read>, err: seq<Read>) {
    function Of(fd: nat): seq<Read> {
      if fd == 1 then out else err
    }
  }

  function Start(sink: Sink): State {
    State([], 0, map[1 := 0, 2 := 0], {}, sink)
  }

  predicate Enabled(inp: Inputs, st: State, e: Step) {
    match e
    case Send(fd) => fd in st.sent && fd !in st.cut && st.sent[fd] < |Sent(fd, inp.Of(fd))|
    case Take => st.taken < |st.log|
    case Cut(fd) => fd in st.sent && fd !in st.cut
  }

  function Apply(inp: Inputs, st: State, e: Step): State
    requires Enabled(inp, st, e)
  {
    match e
    case Send(fd) => st.(log := st.log + [Sent(fd, inp.Of(fd))[st.sent[fd]]], sent := st.sent[fd := st.sent[fd] + 1])
    case Take => st.(taken := st.taken + 1, sink := Received(st.sink, st.log[st.taken]).0)
    case Cut(fd) => st.(log := st.log + [File(fd, [], true)], cut := st.cut + {fd})
  }

  /** The steps can be taken one after the other. */
  predicate Possible(inp: Inputs, sink: Sink, es: seq<Step>)
    decreases |es|, 0
  {
    es == [] || (Possible(inp, sink, es[..|es| - 1]) && Enabled(inp, After(inp, sink, es[..|es| - 1]), es[|es| - 1]))
  }

  function After(inp: Inputs, sink: Sink, es: seq<Step>): State
    requires Possible(inp, sink, es)
    decreases |es|, 1
  {
    if es == [] then Start(sink) else Apply(inp, After(inp, sink, es[..|es| - 1]), es[|es| - 1])
  }

  /** On the stream are, for each descriptor, the messages its sender has sent, in order. */
  ghost predicate Conserved(inp: Inputs, st: State, fd: nat) {
    fd in st.sent && st.sent[fd] <= |Sent(fd, inp.Of(fd))| &&
    var part := Sent(fd, inp.Of(fd))[..st.sent[fd]];
    Only(fd, st.log) == if fd in st.cut then part + [File(fd, [], true)] else part
  }

  ghost predicate Inv(inp: Inputs, sink: Sink, st: State) {
    Conserved(inp, st, 1) && Conserved(inp, st, 2) && st.sent.Keys == {1, 2} && st.taken <= |st.log| &&
    (forall i :: 0 <= i < |st.log| ==> Acceptable(st.log[i])) && AllDelivered(sink, st.log[..st.taken], st.sink)
  }

  lemma OneMoreSent(fd: nat, log: seq<Message>, total: seq<Message>, k: nat)
    requires k < |total| && total[k].File? && total[k].fd == fd && Only(fd, log) == total[..k]
    ensures Only(fd, log + [total[k]]) == total[..k + 1]
  {
    OnlyOneMore(fd, log, total[k]);
  }

  lemma SendConserves(inp: Inputs, st: State, fd: nat, at: nat)
    requires Conserved(inp, st, at) && Enabled(inp, st, Send(fd))
    ensures Conserved(inp, Apply(inp, st, Send(fd)), at)
  {
    var total, k := Sent(fd, inp.Of(fd)), st.sent[fd];
    assert total[k].File? && total[k].fd == fd by { SentCarries(fd, inp.Of(fd)); }
    if at == fd {
      OneMoreSent(fd, st.log, total, k);
    } else {
      OnlyOneMore(at, st.log, total[k]);
    }
  }

  lemma SendKeepsInv(inp: Inputs, sink: Sink, st: State, fd: nat)
    requires Inv(inp, sink, st) && Enabled(inp, st, Send(fd))
    ensures Inv(inp, sink, Apply(inp, st, Send(fd)))
  {
    SendConserves(inp, st, fd, 1);
    SendConserves(inp, st, fd, 2);
    var m := Sent(fd, inp.Of(fd))[st.sent[fd]];
    assert m.File? && m.fd == fd by { SentCarries(fd, inp.Of(fd)); }
    LogGrows(st.log, m, st.taken);
  }

  lemma LogGrows(log: seq<Message>, m: Message, taken: nat)
    requires taken <= |log|
    ensures (log + [m])[..taken] == log[..taken]
  {
  }

  lemma TakeKeepsInv(inp: Inputs, sink: Sink, st: State)
    requires Inv(inp, sink, st) && Enabled(inp, st, Take)
    ensures Inv(inp, sink, Apply(inp, st, Take))
  {
    OneMoreDelivered(sink, st.log[..st.taken], st.sink, st.log[st.taken]);
    assert st.log[..st.taken + 1] == st.log[..st.taken] + [st.log[st.taken]];
  }

  lemma CutKeepsInv(inp: Inputs, sink: Sink, st: State, fd: nat)
    requires Inv(inp, sink, st) && Enabled(inp, st, Cut(fd))
    ensures Inv(inp, sink, Apply(inp, st, Cut(fd)))
  {
    OnlyOneMore(1, st.log, File(fd, [], true));
    OnlyOneMore(2, st.log, File(fd, [], true));
    LogGrows(st.log, File(fd, [], true), st.taken);
  }

  lemma StepKeepsInv(inp: Inputs, sink: Sink, st: State, e: Step)
    requires Inv(inp, sink, st) && Enabled(inp, st, e)
    ensures Inv(inp, sink, Apply(inp, st, e))
  {
    match e
    case Send(fd) => SendKeepsInv(inp, sink, st, fd);
    case Take => TakeKeepsInv(inp, sink, st);
    case Cut(fd) => CutKeepsInv(inp, sink, st, fd);
  }

  /** Over every run, under every interleaving, the messages of each descriptor are conserved. */
  lemma {:induction false} EveryRunConserves(inp: Inputs, sink: Sink, es: seq<Step>)
    requires sink.eofs == {} && Possible(inp, sink, es)
    ensures Inv(inp, sink, After(inp, sink, es))
  {
    if es == [] {
      NothingDelivered(sink);
    } else {
      EveryRunConserves(inp, sink, es[..|es| - 1]);
      StepKeepsInv(inp, sink, After(inp, sink, es[..|es| - 1]), es[|es| - 1]);
    }
  }

  /** What has arrived of a descriptor is a prefix of what its sender had to send; all of it in the end. */
  lemma ArrivedInOrder(inp: Inputs, st: State, fd: nat)
    requires Conserved(inp, st, fd) && st.taken <= |st.log|
    ensures var total := Sent(fd, inp.Of(fd));
            Payload(fd, st.log[..st.taken]) <= Payload(fd, total) &&
            (st.taken == |st.log| && fd !in st.cut && st.sent[fd] == |total| ==>
               Payload(fd, st.log[..st.taken]) == Payload(fd, total) && (Ended(fd, st.log[..st.taken]) <==> Ended(fd, total))) &&
            (st.taken == |st.log| && fd in st.cut ==> Ended(fd, st.log[..st.taken]))
  {
    var total, k := Sent(fd, inp.Of(fd)), st.sent[fd];
    PayloadPrefix(fd, st.log, st.taken);
    PayloadOfOnly(fd, st.log);
    PayloadOneMore(fd, total[..k], File(fd, [], true));
    PayloadPrefix(fd, total, k);
    assert st.taken == |st.log| ==> st.log[..st.taken] == st.log;
    assert k == |total| ==> total[..k] == total;
  }

  /**
   Under every interleaving each writer has received a prefix of what its reader
   returned, never a byte of the other, and all of it once the stream is drained, if
   and only if the reader's last call returned no data. Then its end is known exactly
   when the reader came to the end of its file, or when the sender was cut off.
   */
  lemma EveryRunDelivers(inp: Inputs, sink: Sink, es: seq<Step>, fd: nat)
    requires sink.eofs == {} && sink.Writer(fd) == Some([]) && Possible(inp, sink, es)
    ensures var st := After(inp, sink, es); var rs := inp.Of(fd);
            fd in st.sent && st.sink.Writer(fd).Some? && st.sink.Writer(fd).value <= BytesRead(rs) &&
            (st.taken == |st.log| && fd !in st.cut && st.sent[fd] == |Sent(fd, rs)| ==>
               (st.sink.Writer(fd).value == BytesRead(rs) <==> LastBytes(rs) == []) && (fd in st.sink.eofs <==> EndsInFile(rs))) &&
            (st.taken == |st.log| && fd in st.cut ==> fd in st.sink.eofs)
  {
    var st := After(inp, sink, es);
    EveryRunConserves(inp, sink, es);
    assert Conserved(inp, st, fd);
    ArrivedInOrder(inp, st, fd);
    assert Delivered(sink, st.log[..st.taken], st.sink, fd);
    assert [] + Payload(fd, st.log[..st.taken]) == Payload(fd, st.log[..st.taken]);
    NothingLost(fd, inp.Of(fd));
    SentCarries(fd, inp.Of(fd));
  }

  /**
   The main result, for the pipes that the senders read from: under every
   interleaving each writer has a prefix of the bytes of its own pipe, and exactly
   these bytes once the stream is drained.
   */
  lemma EveryRunDeliversPipes(inp: Inputs, sink: Sink, es: seq<Step>, fd: nat)
    requires FromPipe(inp.Of(fd))
    requires sink.eofs == {} && sink.Writer(fd) == Some([]) && Possible(inp, sink, es)
    ensures var st := After(inp, sink, es); var rs := inp.Of(fd);
            fd in st.sent && st.sink.Writer(fd).Some? && st.sink.Writer(fd).value <= BytesRead(rs) &&
            (st.taken == |st.log| && fd !in st.cut && st.sent[fd] == |Sent(fd, rs)| ==>
               st.sink.Writer(fd) == Some(BytesRead(rs)) && (fd in st.sink.eofs <==> EndsInFile(rs)))
  {
    PipeEndsClean(inp.Of(fd));
    EveryRunDelivers(inp, sink, es, fd);
  }
}
