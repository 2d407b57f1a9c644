/**
 The controller's remote server keeps a map of sessions. A Build call enters and
 leaves its session in critical sections; between them other calls interleave.
 Each critical section is one step here, and a run is any sequence of steps.
 */
module Sessions {
  import opened Common

  /** Builds are numbered in the order they are admitted; a build stands for its channel, result and options. */
  datatype Session = Session(ongoing: bool, status: Option<nat>, result: Option<nat>, cancel: Option<nat>, options: Option<nat>)

  datatype Error = EmptyID | BuildOngoing | UnknownSession

  /** Entering a build: refused while another is going on. */
  function Entered(ss: map<string, Session>, id: string, b: nat): (map<string, Session>, Option<Error>) {
    if id == "" then (ss, Some(EmptyID))
    else if id in ss && ss[id].ongoing then (ss, Some(BuildOngoing))
    else if id in ss then (ss[id := ss[id].(ongoing := true, result := None, status := Some(b))], None)
    else (ss[id := Session(true, Some(b), None, None, None)], None)
  }

  /** Storing what the build returned, if the session is still there. */
  function Stored(ss: map<string, Session>, id: string, b: nat, hasResult: bool): (map<string, Session>, Option<Error>) {
    if id !in ss then (ss, Some(UnknownSession))
    else if !hasResult then (ss, None)
    else (ss[id := ss[id].(result := Some(b), cancel := Some(b), options := Some(b))], None)
  }

  /** Leaving a build: the session is looked up again by its identifier. */
  function Freed(ss: map<string, Session>, id: string): map<string, Session> {
    if id in ss then ss[id := ss[id].(status := None, ongoing := false)] else ss
  }

  function Removed(ss: map<string, Session>, id: string): (map<string, Session>, Option<Error>) {
    if id == "" then (ss, Some(EmptyID)) else (ss - {id}, None)
  }

  class Server {
    var sessions: map<string, Session>

    constructor ()
      ensures sessions == map[]
    {
      sessions := map[];
    }

    method BuildEnter(id: string, b: nat) returns (err: Option<Error>)
      modifies this
      ensures (sessions, err) == Entered(old(sessions), id, b)
    {
      if id == "" {
        return Some(EmptyID);
      }
      var s;
      if id in sessions {
        s := sessions[id];
        if s.ongoing {
          return Some(BuildOngoing);
        }
        s := s.(ongoing := true, result := None);
      } else {
        s := Session(true, None, None, None, None);
      }
      s := s.(status := Some(b));
      sessions := sessions[id := s];
      return None;
    }

    method BuildStore(id: string, b: nat, hasResult: bool) returns (err: Option<Error>)
      modifies this
      ensures (sessions, err) == Stored(old(sessions), id, b, hasResult)
    {
      if id !in sessions {
        return Some(UnknownSession);
      }
      if hasResult {
        var s := sessions[id];
        s := s.(result := Some(b), cancel := Some(b), options := Some(b));
        sessions := sessions[id := s];
      }
      return None;
    }

    method BuildLeave(id: string)
      modifies this
      ensures sessions == Freed(old(sessions), id)
    {
      if id in sessions {
        sessions := sessions[id := sessions[id].(status := None, ongoing := false)];
      }
    }

    method Disconnect(id: string) returns (err: Option<Error>)
      modifies this
      ensures (sessions, err) == Removed(old(sessions), id)
    {
      if id == "" {
        return Some(EmptyID);
      }
      sessions := sessions - {id};
      return None;
    }
  }

  /** One step of the system, on the server: what it does to the sessions is what the step says. */
  method Perform(srv: Server, st: State, e: Step)
    requires srv.sessions == st.sessions && Enabled(st, e)
    modifies srv
    ensures srv.sessions == Apply(st, e).sessions
  {
    match e
    case Begin(id) =>
      var err := srv.BuildEnter(id, st.next);
    case Store(b, hasResult) =>
      var err := srv.BuildStore(st.builds[b].id, b, hasResult);
    case End(b) =>
      srv.BuildLeave(st.builds[b].id);
    case Disconnect(id) =>
      var err := srv.Disconnect(id);
  }

  /** Any run of the system, on a new server. */
  method PerformAll(es: seq<Step>) returns (srv: Server)
    requires Possible(es)
    ensures srv.sessions == After(es).sessions
  {
    srv := new Server();
    var st := INIT;
    assert es[..0] == [];
    for i := 0 to |es|
      invariant fresh(srv) && Possible(es[..i]) && st == After(es[..i]) && srv.sessions == st.sessions
    {
      PossiblePrefix(es, i + 1);
      assert es[..i + 1][..i] == es[..i];
      Perform(srv, st, es[i]);
      st := Apply(st, es[i]);
    }
    assert es[..|es|] == es;
  }

  lemma {:induction false} PossiblePrefix(es: seq<Step>, k: nat)
    requires Possible(es) && k <= |es|
    ensures Possible(es[..k])
    decreases |es|
  {
    if k == |es| {
      assert es[..k] == es;
    } else {
      assert es[..|es| - 1][..k] == es[..k];
      PossiblePrefix(es[..|es| - 1], k);
    }
  }

  /** A Build call between its first and its last critical section. */
  datatype Build = Build(id: string, stored: bool)

  datatype State = State(sessions: map<string, Session>, builds: map<nat, Build>, next: nat)

  const INIT := State(map[], map[], 0)

  datatype Step = Begin(id: string) | Store(build: nat, hasResult: bool) | End(build: nat) | Disconnect(id: string)

  /** A step of a build is possible only while the build is at that point. */
  predicate Enabled(st: State, e: Step) {
    match e
    case Begin(_) => true
    case Store(b, _) => b in st.builds && !st.builds[b].stored
    case End(b) => b in st.builds && st.builds[b].stored
    case Disconnect(_) => true
  }

  function Apply(st: State, e: Step): State
    requires Enabled(st, e)
  {
    match e
    case Begin(id) =>
      var (ss, err) := Entered(st.sessions, id, st.next);
      if err.Some? then st.(sessions := ss) else State(ss, st.builds[st.next := Build(id, false)], st.next + 1)
    case Store(b, hasResult) =>
      st.(sessions := Stored(st.sessions, st.builds[b].id, b, hasResult).0, builds := st.builds[b := st.builds[b].(stored := true)])
    case End(b) =>
      st.(sessions := Freed(st.sessions, st.builds[b].id), builds := st.builds - {b})
    case Disconnect(id) =>
      st.(sessions := Removed(st.sessions, id).0)
  }

  ghost predicate Running(st: State, id: string, b: nat) {
    b in st.builds && st.builds[b].id == id
  }

  /** The session of `id` is marked busy, and names its channel, exactly for the one build that is running in it. */
  ghost predicate Consistent(st: State, id: string) {
    id in st.sessions ==>
      var s := st.sessions[id];
      (s.ongoing <==> s.status.Some?) &&
      (forall b: nat :: Running(st, id, b) <==> s.status == Some(b)) &&
      (forall b: nat :: Running(st, id, b) && s.result.Some? ==> s.result == Some(b) && st.builds[b].stored) &&
      (s.result.Some? ==> s.cancel == s.result && s.options == s.result)
  }

  ghost predicate Inv(st: State) {
    Numbered(st) && forall id :: Consistent(st, id)
  }

  /** A build of `id` is still running although its session was disconnected. */
  ghost predicate Stale(st: State, id: string) {
    id !in st.sessions && exists b :: Running(st, id, b)
  }

  /** A build that enters a new session while a stale build of the same identifier runs. */
  ghost predicate Collides(st: State, e: Step) {
    e.Begin? && e.id != "" && Stale(st, e.id)
  }

  lemma InitInv()
    ensures Inv(INIT)
  {
  }

  lemma BeginConsistent(st: State, id: string)
    requires Inv(st) && !Stale(st, id)
    ensures Consistent(Apply(st, Begin(id)), id)
  {
    assert Consistent(st, id);
    var st' := Apply(st, Begin(id));
    if st' != st {
      forall b ensures Running(st', id, b) <==> st'.sessions[id].status == Some(b) {
        assert b != st.next ==> (Running(st', id, b) <==> Running(st, id, b));
      }
    }
  }

  lemma StoreConsistent(st: State, b: nat, hasResult: bool)
    requires Inv(st) && Enabled(st, Store(b, hasResult))
    ensures Consistent(Apply(st, Store(b, hasResult)), st.builds[b].id)
  {
    var id := st.builds[b].id;
    assert Consistent(st, id);
    var st' := Apply(st, Store(b, hasResult));
    assert Running(st, id, b);
    assert forall k :: Running(st', id, k) <==> Running(st, id, k);
  }

  lemma EndConsistent(st: State, b: nat)
    requires Inv(st) && Enabled(st, End(b))
    ensures Consistent(Apply(st, End(b)), st.builds[b].id)
  {
    var id := st.builds[b].id;
    assert Consistent(st, id);
    var st' := Apply(st, End(b));
    assert Running(st, id, b);
    assert forall k :: Running(st', id, k) <==> Running(st, id, k) && k != b;
  }

  /** A step touches only the session it names. */
  lemma OtherConsistent(st: State, e: Step, id: string)
    requires Inv(st) && Enabled(st, e)
    requires match e case Begin(i) => i != id case Store(b, _) => st.builds[b].id != id case End(b) => st.builds[b].id != id case Disconnect(i) => true
    ensures Consistent(Apply(st, e), id)
  {
    assert Consistent(st, id);
    var st' := Apply(st, e);
    forall b ensures Running(st', id, b) <==> Running(st, id, b) {
      assert e.Begin? ==> st.next !in st.builds;
    }
  }

  /** Every step keeps the invariant unless it collides with a stale build; then it breaks it. */
  lemma StepKeepsInv(st: State, e: Step)
    requires Inv(st) && Enabled(st, e)
    ensures Inv(Apply(st, e)) <==> !Collides(st, e)
  {
    var st' := Apply(st, e);
    if Collides(st, e) {
      var b :| Running(st, e.id, b);
      assert Running(st', e.id, b) && Running(st', e.id, st.next) && b != st.next;
      assert !Consistent(st', e.id);
    } else {
      forall id ensures Consistent(st', id) {
        match e
        case Begin(i) => if i == id && i != "" { BeginConsistent(st, id); } else if i == id { assert Consistent(st, id); } else { OtherConsistent(st, e, id); }
        case Store(b, r) => if st.builds[b].id == id { StoreConsistent(st, b, r); } else { OtherConsistent(st, e, id); }
        case End(b) => if st.builds[b].id == id { EndConsistent(st, b); } else { OtherConsistent(st, e, id); }
        case Disconnect(_) => OtherConsistent(st, e, id);
      }
    }
  }

  /** The steps can be taken one after the other from the start. */
  predicate Possible(es: seq<Step>)
    decreases |es|, 0
  {
    es == [] || (Possible(es[..|es| - 1]) && Enabled(After(es[..|es| - 1]), es[|es| - 1]))
  }

  function After(es: seq<Step>): State
    requires Possible(es)
    decreases |es|, 1
  {
    if es == [] then INIT else Apply(After(es[..|es| - 1]), es[|es| - 1])
  }

  /** Clients name each new session by an identifier that was never used before. */
  ghost predicate FreshIds(es: seq<Step>)
    requires Possible(es)
  {
    es == [] ||
    (var t := es[..|es| - 1]; var e := es[|es| - 1];
     FreshIds(t) && (e.Begin? && e.id !in After(t).sessions ==> e !in t))
  }

  /** Whatever is running or kept was begun earlier in the run. */
  lemma {:induction false} BegunBefore(es: seq<Step>)
    requires Possible(es)
    ensures forall b :: b in After(es).builds ==> Begin(After(es).builds[b].id) in es
    ensures forall id :: id in After(es).sessions ==> Begin(id) in es
  {
    if es != [] {
      var t := es[..|es| - 1];
      BegunBefore(t);
      assert es == t + [es[|es| - 1]];
    }
  }

  /** Over every run with fresh identifiers the invariant holds. */
  lemma {:induction false} EveryRunKeepsInv(es: seq<Step>)
    requires Possible(es) && FreshIds(es)
    ensures Inv(After(es))
  {
    if es == [] {
      InitInv();
    } else {
      var t := es[..|es| - 1];
      EveryRunKeepsInv(t);
      BegunBefore(t);
      StepKeepsInv(After(t), es[|es| - 1]);
    }
  }

  /** So no session ever runs two builds, it is free again exactly when its build has ended, and then lets the next one in. */
  lemma MutualExclusion(es: seq<Step>, id: string, b: nat, c: nat)
    requires Possible(es) && FreshIds(es) && id in After(es).sessions
    ensures Running(After(es), id, b) && Running(After(es), id, c) ==> b == c
    ensures Running(After(es), id, b) ==> Apply(After(es), Begin(id)) == After(es)
    ensures After(es).sessions[id].ongoing <==> exists k: nat :: Running(After(es), id, k)
    ensures id != "" && !After(es).sessions[id].ongoing ==> Running(Apply(After(es), Begin(id)), id, After(es).next)
  {
    EveryRunKeepsInv(es);
    var st := After(es);
    assert Consistent(st, id);
    if st.sessions[id].ongoing {
      assert Running(st, id, st.sessions[id].status.value);
    }
  }

  /** A session that was disconnected never comes back. */
  lemma {:induction false} DisconnectedForGood(es: seq<Step>, k: nat)
    requires Possible(es) && FreshIds(es) && k < |es| && Possible(es[..k]) && es[k].Disconnect?
    requires es[k].id in After(es[..k]).sessions && es[k].id != ""
    ensures es[k].id !in After(es).sessions
  {
    var t := es[..|es| - 1];
    if k == |t| {
      assert t == es[..k];
    } else {
      assert t[..k] == es[..k];
      DisconnectedForGood(t, k);
      BegunBefore(es[..k]);
      assert forall x :: x in es[..k] ==> x in t;
    }
  }

  /** The step brings the result of build `b` into the session of `id`, which is still there. */
  ghost predicate Stores(st: State, e: Step, id: string, b: nat) {
    e == Store(b, true) && Running(st, id, b) && id in st.sessions
  }

  /** The step brings any result into the session of `id`. */
  ghost predicate StoresAny(st: State, e: Step, id: string) {
    e.Store? && Stores(st, e, id, e.build)
  }

  /** The step removes the session of `id`. */
  predicate Removes(e: Step, id: string) {
    e == Disconnect(id) && id != ""
  }

  /** The step lets a build of `id` begin: none is going on. */
  predicate Admits(st: State, e: Step, id: string) {
    e == Begin(id) && id != "" && !(id in st.sessions && st.sessions[id].ongoing)
  }

  ghost predicate HasResult(st: State, id: string, b: nat) {
    id in st.sessions && st.sessions[id].result == Some(b)
  }

  /** The session can be cancelled and inspected by what build `b` left there. */
  ghost predicate HasOptions(st: State, id: string, b: nat) {
    id in st.sessions && st.sessions[id].cancel == Some(b) && st.sessions[id].options == Some(b)
  }

  /** The state before step `k` of a run. */
  ghost function Before(es: seq<Step>, k: nat): State
    requires Possible(es) && k <= |es|
  {
    PossiblePrefix(es, k);
    After(es[..k])
  }

  type Event = (State, Step) -> bool

  ghost predicate Happens(es: seq<Step>, k: nat, ev: Event)
    requires Possible(es)
  {
    k < |es| && ev(Before(es, k), es[k])
  }

  /** What `begins` at some steps and `ends` at some holds now: there was a beginning, and nothing has ended it since. */
  ghost predicate Lasts(es: seq<Step>, begins: Event, ends: Event)
    requires Possible(es)
  {
    exists k :: Happens(es, k, begins) && Calm(es, k, ends)
  }

  /** Nothing of the kind has happened behind step `k`. */
  ghost predicate Calm(es: seq<Step>, k: nat, ev: Event)
    requires Possible(es)
  {
    forall j :: k < j < |es| ==> !Happens(es, j, ev)
  }

  lemma HappensBefore(es: seq<Step>, k: nat, ev: Event)
    requires Possible(es) && k < |es|
    ensures var t := es[..|es| - 1];
            Happens(es, k, ev) <==> if k < |t| then Happens(t, k, ev) else ev(After(t), es[k])
  {
    assert es[..|es| - 1][..k] == es[..k];
    assert k == |es| - 1 ==> es[..k][..k] == es[..k];
  }

  lemma CalmBefore(es: seq<Step>, k: nat, ev: Event)
    requires Possible(es) && k < |es|
    ensures var t, e := es[..|es| - 1], es[|es| - 1];
            Calm(es, k, ev) <==> k == |t| || (Calm(t, k, ev) && !ev(After(t), e))
  {
    var t, n := es[..|es| - 1], |es| - 1;
    forall j: nat | j < |es| ensures Happens(es, j, ev) <==> if j < n then Happens(t, j, ev) else ev(After(t), es[n]) {
      HappensBefore(es, j, ev);
    }
    if k < n {
      assert Calm(es, k, ev) ==> !Happens(es, n, ev);
      if Calm(es, k, ev) {
        forall j | k < j < n ensures !Happens(t, j, ev) {
          assert !Happens(es, j, ev);
        }
      }
    }
  }

  lemma LastsStep(es: seq<Step>, begins: Event, ends: Event)
    requires Possible(es) && es != []
    ensures var t, e := es[..|es| - 1], es[|es| - 1];
            Lasts(es, begins, ends) <==> begins(After(t), e) || (Lasts(t, begins, ends) && !ends(After(t), e))
  {
    var t, n := es[..|es| - 1], |es| - 1;
    if Lasts(es, begins, ends) {
      var k: nat :| Happens(es, k, begins) && Calm(es, k, ends);
      HappensBefore(es, k, begins);
      CalmBefore(es, k, ends);
    }
    if begins(After(t), es[n]) {
      HappensBefore(es, n, begins);
      assert Happens(es, n, begins) && Calm(es, n, ends);
    }
    if Lasts(t, begins, ends) && !ends(After(t), es[n]) {
      var k: nat :| Happens(t, k, begins) && Calm(t, k, ends);
      HappensBefore(es, k, begins);
      CalmBefore(es, k, ends);
    }
  }

  /** No build has a number that is still to be given. */
  ghost predicate Numbered(st: State) {
    forall b :: b in st.builds ==> b < st.next
  }

  lemma {:induction false} EveryRunNumbered(es: seq<Step>)
    requires Possible(es)
    ensures Numbered(After(es))
  {
    if es != [] {
      EveryRunNumbered(es[..|es| - 1]);
    }
  }

  /** What every step changes by these rules is told by the run. */
  lemma {:induction false} HoldsIfLasts(es: seq<Step>, holds: State -> bool, begins: Event, ends: Event)
    requires Possible(es) && !holds(INIT)
    requires forall st, e :: Enabled(st, e) && Numbered(st) ==> (holds(Apply(st, e)) <==> begins(st, e) || (holds(st) && !ends(st, e)))
    ensures holds(After(es)) <==> Lasts(es, begins, ends)
  {
    if es != [] {
      HoldsIfLasts(es[..|es| - 1], holds, begins, ends);
      EveryRunNumbered(es[..|es| - 1]);
      LastsStep(es, begins, ends);
    }
  }

  ghost function BeginOf(id: string): Event {
    (st, e) => e == Begin(id) && id != ""
  }

  ghost function RemovalOf(id: string): Event {
    (st, e) => Removes(e, id)
  }

  ghost function StoreOf(id: string, b: nat): Event {
    (st, e) => Stores(st, e, id, b)
  }

  ghost function StoreOrRemoval(id: string): Event {
    (st, e) => StoresAny(st, e, id) || Removes(e, id)
  }

  ghost function StoreBeginOrRemoval(id: string): Event {
    (st, e) => StoresAny(st, e, id) || Admits(st, e, id) || Removes(e, id)
  }

  ghost function StartOf(id: string, b: nat): Event {
    (st, e) => Admits(st, e, id) && st.next == b
  }

  ghost function EndOf(b: nat): Event {
    (st, e) => e == End(b)
  }

  /** In every run: a session is there exactly when a build asked for it and it was not removed since. */
  lemma PresentIff(es: seq<Step>, id: string)
    requires Possible(es)
    ensures id in After(es).sessions <==> Lasts(es, BeginOf(id), RemovalOf(id))
  {
    HoldsIfLasts(es, (st: State) => id in st.sessions, BeginOf(id), RemovalOf(id));
  }

  /** A build is running exactly when it was let in and has not ended since. */
  lemma RunningIff(es: seq<Step>, id: string, b: nat)
    requires Possible(es)
    ensures Running(After(es), id, b) <==> Lasts(es, StartOf(id, b), EndOf(b))
  {
    HoldsIfLasts(es, st => Running(st, id, b), StartOf(id, b), EndOf(b));
  }

  lemma ResultStep(st: State, e: Step, id: string, b: nat)
    requires Enabled(st, e)
    ensures HasResult(Apply(st, e), id, b) <==>
            if StoresAny(st, e, id) then Stores(st, e, id, b) else HasResult(st, id, b) && !Removes(e, id) && !Admits(st, e, id)
  {
  }

  lemma OptionsStep(st: State, e: Step, id: string, b: nat)
    requires Enabled(st, e)
    ensures HasOptions(Apply(st, e), id, b) <==>
            if StoresAny(st, e, id) then Stores(st, e, id, b) else HasOptions(st, id, b) && !Removes(e, id)
  {
  }

  /** The session shows the result of `b` exactly when `b` stored it, and since then nothing was stored, no build begun and the session not removed. */
  lemma ResultIff(es: seq<Step>, id: string, b: nat)
    requires Possible(es)
    ensures HasResult(After(es), id, b) <==> Lasts(es, StoreOf(id, b), StoreBeginOrRemoval(id))
  {
    forall st, e | Enabled(st, e)
      ensures HasResult(Apply(st, e), id, b) <==> Stores(st, e, id, b) || (HasResult(st, id, b) && !StoreBeginOrRemoval(id)(st, e))
    {
      ResultStep(st, e, id, b);
    }
    HoldsIfLasts(es, st => HasResult(st, id, b), StoreOf(id, b), StoreBeginOrRemoval(id));
  }

  /** What cancels and describes a build is stored with its result but outlives the beginning of the next. */
  lemma OptionsIff(es: seq<Step>, id: string, b: nat)
    requires Possible(es)
    ensures HasOptions(After(es), id, b) <==> Lasts(es, StoreOf(id, b), StoreOrRemoval(id))
  {
    forall st, e | Enabled(st, e)
      ensures HasOptions(Apply(st, e), id, b) <==> Stores(st, e, id, b) || (HasOptions(st, id, b) && !StoreOrRemoval(id)(st, e))
    {
      OptionsStep(st, e, id, b);
    }
    HoldsIfLasts(es, st => HasOptions(st, id, b), StoreOf(id, b), StoreOrRemoval(id));
  }

  ghost function BeginOrRemoval(id: string): Event {
    (st, e) => Admits(st, e, id) || Removes(e, id)
  }

  /** No second result can be stored over a first: its build has stored already, and no other is running. */
  lemma StoredOnce(st: State, e: Step, id: string, b: nat)
    requires Inv(st) && Enabled(st, e) && HasResult(st, id, b)
    ensures !StoresAny(st, e, id)
  {
    assert Consistent(st, id);
    assert e.Store? ==> Running(st, st.builds[e.build].id, e.build);
  }

  /** With fresh identifiers a stored result stays until a new build begins or the session is removed. */
  lemma {:induction false} ResultStays(es: seq<Step>, k: nat, id: string, b: nat)
    requires Possible(es) && FreshIds(es) && Happens(es, k, StoreOf(id, b)) && Calm(es, k, BeginOrRemoval(id))
    ensures HasResult(After(es), id, b) && HasOptions(After(es), id, b)
  {
    var t, n := es[..|es| - 1], |es| - 1;
    HappensBefore(es, k, StoreOf(id, b));
    CalmBefore(es, k, BeginOrRemoval(id));
    if k < n {
      ResultStays(t, k, id, b);
      EveryRunKeepsInv(t);
      StoredOnce(After(t), es[n], id, b);
    }
    ResultStep(After(t), es[n], id, b);
    OptionsStep(After(t), es[n], id, b);
  }

  /** A build that returns no result changes nothing that others can see. */
  lemma NothingStored(st: State, b: nat)
    requires Enabled(st, Store(b, false))
    ensures Apply(st, Store(b, false)).sessions == st.sessions
  {
  }

  /** A session that is disconnected and created again while its first build is still running. */
  lemma Reused(id: string) returns (es: seq<Step>)
    requires id != ""
    ensures Possible(es)
    ensures After(es) == State(map[id := Session(true, Some(1), None, None, None)], map[0 := Build(id, false), 1 := Build(id, false)], 2)
  {
    var e1 := Extend([], Begin(id));
    assert After(e1) == State(map[id := Session(true, Some(0), None, None, None)], map[0 := Build(id, false)], 1);
    var e2 := Extend(e1, Disconnect(id));
    assert After(e2) == State(map[], map[0 := Build(id, false)], 1);
    es := Extend(e2, Begin(id));
  }

  /** With a reused identifier a stale build frees the new session, and two builds run in it. */
  lemma StaleBuildFreesSession(id: string)
    requires id != ""
    ensures exists es: seq<Step> :: Possible(es) && id in After(es).sessions && Running(After(es), id, 1) && Running(After(es), id, 2)
  {
    var e3 := Reused(id);
    var e4 := Extend(e3, Store(0, false));
    var e5 := Extend(e4, End(0));
    assert After(e5) == State(map[id := Session(false, None, None, None, None)], map[1 := Build(id, false)], 2);
    var e6 := Extend(e5, Begin(id));
    assert Running(After(e6), id, 1) && Running(After(e6), id, 2);
  }

  lemma Extend(es: seq<Step>, e: Step) returns (r: seq<Step>)
    requires Possible(es) && Enabled(After(es), e)
    ensures r == es + [e] && Possible(r) && After(r) == Apply(After(es), e)
  {
    r := es + [e];
    assert r[..|es|] == es;
  }
}
