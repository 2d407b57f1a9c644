/** What the parser has worked out so far, and when it may add one more value. */
module HclSound {
  import opened Common
  import opened Graphs
  import opened HclModel

  /** All conditions for finishing `k` with value `v` after the keys of `env`. */
  ghost predicate Storable(c: Config, env: map<Key, Val>, k: Key, v: Val) {
    && IsKey(c, k) && k !in env
    && Deps(c, k) <= env.Keys
    && (UniqueLabels(c) ==> Rhs(c, env, k) == Some(v))
  }

  /** The part of `env` that belongs to the keys of `log`. */
  ghost function Part(log: seq<Key>, env: map<Key, Val>): map<Key, Val> {
    map k | k in log && k in env :: env[k]
  }

  /** Stage `i` of the log: the next key was storable then; at the end, exactly the logged keys have values. */
  ghost predicate Stage(c: Config, log: seq<Key>, env: map<Key, Val>, i: nat)
    requires i <= |log|
  {
    if i == |log| then env.Keys == Elems(log)
    else log[i] in env && Storable(c, Part(log[..i], env), log[i], env[log[i]])
  }

  /** Every logged key was new, its dependencies were finished, and it got the value of its equation. */
  ghost predicate Sound(c: Config, log: seq<Key>, env: map<Key, Val>) {
    forall i :: 0 <= i <= |log| ==> Stage(c, log, env, i)
  }

  lemma SoundFinish(c: Config, log: seq<Key>, env: map<Key, Val>, k: Key, v: Val)
    requires Sound(c, log, env) && Storable(c, env, k, v)
    ensures Sound(c, log + [k], env[k := v])
  {
    var log', env' := log + [k], env[k := v];
    assert Stage(c, log, env, |log|);
    assert k !in Elems(log);
    forall i | 0 <= i <= |log'| ensures Stage(c, log', env', i) {
      if i < |log| {
        assert Stage(c, log, env, i);
        assert log'[i] == log[i] && log[i] in Elems(log);
        assert Part(log'[..i], env') == Part(log[..i], env) by {
          assert log'[..i] == log[..i];
          assert forall j :: j in log[..i] ==> j in Elems(log);
        }
      } else if i == |log| {
        assert Part(log'[..i], env') == env by {
          assert log'[..i] == log;
          assert forall j :: j in log <==> j in Elems(log);
        }
      } else {
        ElemsAppend(log, k);
      }
    }
  }

  lemma SoundAt(c: Config, log: seq<Key>, env: map<Key, Val>, i: nat)
    requires Sound(c, log, env) && i < |log|
    ensures log[i] in env && Storable(c, Part(log[..i], env), log[i], env[log[i]])
    ensures log[i] !in log[..i]
    ensures forall d :: d in Deps(c, log[i]) ==> d in log[..i]
  {
    assert Stage(c, log, env, i);
    assert Stage(c, log, env, |log|);
    assert forall d :: d in log[..i] ==> d in Elems(log);
  }

  lemma SoundKeys(c: Config, log: seq<Key>, env: map<Key, Val>)
    requires Sound(c, log, env)
    ensures env.Keys == Elems(log)
    ensures forall k :: k in env ==> IsKey(c, k)
  {
    assert Stage(c, log, env, |log|);
    forall k | k in env ensures IsKey(c, k) {
      assert k in Elems(log);
      var i :| 0 <= i < |log| && log[i] == k;
      SoundAt(c, log, env, i);
    }
  }

  /** The log lists every key once, dependencies first. */
  lemma SoundOrder(c: Config, log: seq<Key>, env: map<Key, Val>)
    requires Sound(c, log, env)
    ensures Distinct(log) && Ordered(Edge(c), log)
  {
    forall i, j | 0 <= i < j < |log| ensures log[i] != log[j] {
      SoundAt(c, log, env, j);
      assert log[i] in log[..j];
    }
    forall i, b | 0 <= i < |log| && Edge(c)(log[i], b) ensures b in log[..i] {
      SoundAt(c, log, env, i);
    }
  }

  /** Every equation of a logged key holds, now and not only when it was logged. */
  lemma SoundHolds(c: Config, log: seq<Key>, env: map<Key, Val>, k: Key)
    requires Sound(c, log, env) && UniqueLabels(c) && k in env
    ensures Holds(c, env, k)
  {
    SoundKeys(c, log, env);
    assert k in Elems(log);
    var i :| 0 <= i < |log| && log[i] == k;
    SoundAt(c, log, env, i);
    RhsLocal(c, Part(log[..i], env), env, k);
  }

  /** Values worked out so far agree with every solution of the whole file. */
  lemma SoundForced(c: Config, log: seq<Key>, env: map<Key, Val>, sol: map<Key, Val>, k: Key)
    requires Sound(c, log, env) && UniqueLabels(c) && Solution(c, sol) && k in env
    ensures Agree(env, sol, k)
  {
    SoundKeys(c, log, env);
    SoundOrder(c, log, env);
    assert k in Elems(log);
    var i :| 0 <= i < |log| && log[i] == k;
    forall j | j in log ensures Holds(c, env, j) {
      assert j in Elems(log);
      SoundHolds(c, log, env, j);
    }
    Forced(c, log, env, sol, i);
  }

  /** When a needed equation cannot be evaluated, the file has no solution at all. */
  lemma StuckMeansNoSolution(c: Config, log: seq<Key>, env: map<Key, Val>, k: Key)
    requires Sound(c, log, env) && UniqueLabels(c)
    requires IsKey(c, k) && Deps(c, k) <= env.Keys && Rhs(c, env, k) == None
    ensures forall s :: !Solution(c, s)
  {
    forall s ensures !Solution(c, s) {
      if Solution(c, s) {
        KeysAreKeys(c);
        SoundKeys(c, log, env);
        forall d | d in Deps(c, k) ensures Agree(env, s, d) {
          SoundForced(c, log, env, s, d);
        }
        assert Holds(c, s, k);
        RhsLocal(c, env, s, k);
        assert false;
      }
    }
  }

  /** Once everything is finished, each key was finished exactly once, after its dependencies: nothing is cyclic. */
  lemma FinishedMeansAcyclic(c: Config, log: seq<Key>, env: map<Key, Val>)
    requires Sound(c, log, env) && Keys(c) <= env.Keys
    ensures Elems(log) == Keys(c) && Distinct(log) && Ordered(Edge(c), log)
    ensures Acyclic(Edge(c))
  {
    KeysAreKeys(c);
    SoundKeys(c, log, env);
    SoundOrder(c, log, env);
    forall k ensures !OnCycle(Edge(c), k) {
      if k in Elems(log) {
        OrderedAcyclic(Edge(c), log, k);
      } else {
        assert Deps(c, k) == {};
      }
    }
  }

  /** Once everything is finished, the values are the one solution of the file. */
  lemma FinishedMeansSolved(c: Config, log: seq<Key>, env: map<Key, Val>)
    requires Sound(c, log, env) && Keys(c) <= env.Keys && UniqueLabels(c)
    ensures Solution(c, env)
    ensures forall s :: Solution(c, s) ==> s == env
  {
    FinishedMeansAcyclic(c, log, env);
    SoundKeys(c, log, env);
    forall k | k in Keys(c) ensures Holds(c, env, k) {
      SoundHolds(c, log, env, k);
    }
    assert Solution(c, env);
    forall s | Solution(c, s) ensures s == env {
      SolutionUnique(c, log, s, env);
    }
  }
}
