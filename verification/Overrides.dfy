/** Settings given on the command line, and the clean-up that follows them. */
module Overrides {
  import opened Common
  import opened Texts
  import opened Slices
  import opened Targets

  /** The kinds of named entries. */
  datatype Kind = Args | Labels | Contexts

  /** What an override sets. Settings that are no part of a target here are elsewhere. */
  datatype Slot =
    | Scalar(f: Field)
    | Named(kind: Kind, n: string)
    | Replace(l: ListField)
    | AddEntitlements
    | AddAnnotations
    | SetNoCacheFilter
    | SetUlimits
    | Elsewhere
    | Malformed

  /** The value or values given, and whether they can be read for a setting that is elsewhere. */
  datatype Override = Override(value: string, arr: seq<string>, readable: bool)

  const DOT := '.'

  /** What a key sets: its part in front of the first dot decides, and only entries have a name behind it. */
  function SlotOf(key: string): Slot {
    match CutAt(key, DOT)
    case None => PlainSlot(key)
    case Some((first, name)) =>
      match KindOf(first)
      case Some(k) => Named(k, name)
      case None => PlainSlot(first)
  }

  function KindOf(first: string): Option<Kind> {
    if first == "args" then Some(Args) else if first == "labels" then Some(Labels) else if first == "contexts" then Some(Contexts) else None
  }

  function PlainSlot(first: string): Slot {
    if first == "context" then Scalar(Context)
    else if first == "dockerfile" then Scalar(Dockerfile)
    else if first == "tags" then Replace(Tags)
    else if first == "target" then Scalar(Stage)
    else if first == "call" then Scalar(Call)
    else if first == "platform" then Replace(Platforms)
    else if first == "entitlements" then AddEntitlements
    else if first == "annotations" then AddAnnotations
    else if first == "no-cache" then Scalar(NoCache)
    else if first == "no-cache-filter" then SetNoCacheFilter
    else if first == "shm-size" then Scalar(ShmSize)
    else if first == "ulimits" then SetUlimits
    else if first == "network" then Scalar(NetworkMode)
    else if first == "pull" then Scalar(Pull)
    else if first in ["cache-from", "cache-to", "secrets", "ssh", "output", "attest", "push", "load"] then Elsewhere
    else Malformed
  }

  /** An override fails if its key is unknown or lacks a name, or its value cannot be read. */
  predicate Valid(k: Slot, v: Override) {
    match k
    case Scalar(f) => f in {Pull, NoCache} ==> ParseBool(v.value).Some?
    case Elsewhere => v.readable
    case Malformed => false
    case _ => true
  }

  /** How a single value is stored. */
  function Canon(f: Field, v: string): string {
    if f in {Pull, NoCache} then (if ParseBool(v) == Some(true) then "true" else "false") else v
  }

  /** What is refused: unknown keys, unreadable values of other settings, and anything but truth values for pull and no-cache. */
  lemma ValidMeans(k: Slot, v: Override)
    ensures Valid(k, v) <==> k != Malformed && (k == Elsewhere ==> v.readable) && (k == Scalar(Pull) || k == Scalar(NoCache) ==> ParseBool(v.value).Some?)
  {
  }

  /** Pull and no-cache take truth values in any spelling and keep the plain one; all other single values stay as given. */
  lemma CanonMeans(f: Field, v: Override)
    requires Valid(Scalar(f), v)
    ensures if f == Pull || f == NoCache then
              ParseBool(v.value).Some? && Canon(f, v.value) == (if ParseBool(v.value).value then "true" else "false")
            else Canon(f, v.value) == v.value
  {
  }

  // One round of the loop over the overrides, kind by kind of setting.

  function ApplyScalars(s: map<Field, string>, k: Slot, v: Override): map<Field, string> {
    if k.Scalar? then s[k.f := Canon(k.f, v.value)] else s
  }

  function ApplyReplaced(r: map<ListField, seq<string>>, k: Slot, v: Override): map<ListField, seq<string>> {
    if k.Replace? then r[k.l := v.arr] else r
  }

  function ApplyLists(l: Lists, k: Slot, v: Override): Lists {
    match k
    case AddEntitlements => l.(entitlements := l.entitlements + v.arr)
    case AddAnnotations => l.(annotations := l.annotations + v.arr)
    case SetNoCacheFilter => l.(noCacheFilter := v.arr)
    case SetUlimits => l.(ulimits := v.arr)
    case _ => l
  }

  function ApplyEntries(e: Entries, k: Slot, v: Override): Entries {
    match k
    case Named(Args, n) => e.(args := e.args[n := Some(v.value)])
    case Named(Labels, n) => e.(labels := e.labels[n := Some(v.value)])
    case Named(Contexts, n) => e.(contexts := e.contexts[n := v.value])
    case _ => e
  }

  function ApplyOne(t: Target, k: Slot, v: Override): Target {
    Target(t.name, ApplyScalars(t.scalars, k, v), ApplyReplaced(t.replaced, k, v), ApplyLists(t.lists, k, v), ApplyEntries(t.entries, k, v))
  }

  /** An override with what it sets. */
  datatype Act = Act(slot: Slot, over: Override)

  predicate AllValid(acts: seq<Act>) {
    forall i :: 0 <= i < |acts| ==> Valid(acts[i].slot, acts[i].over)
  }

  /** The target after all overrides, one after the other. */
  function Overridden(t: Target, acts: seq<Act>): Target {
    if acts == [] then t else ApplyOne(Overridden(t, acts[..|acts| - 1]), acts[|acts| - 1].slot, acts[|acts| - 1].over)
  }

  /** One entry of the map of overrides, under its key as given. */
  datatype Entry = Entry(key: string, over: Override)

  function ActOf(e: Entry): Act {
    Act(SlotOf(e.key), e.over)
  }

  function Acts(es: seq<Entry>): seq<Act> {
    Mapped(es, ActOf)
  }

  /** The loop over the map, whose entries come in some order `es`. */
  method AddOverrides(t: Target, es: seq<Entry>) returns (r: Option<Target>)
    ensures r.Some? <==> AllValid(Acts(es))
    ensures r.Some? ==> r.value == Overridden(t, Acts(es))
  {
    r := AddAll(t, es, ActOf);
  }

  method AddAll(t: Target, es: seq<Entry>, act: Entry -> Act) returns (r: Option<Target>)
    ensures r.Some? <==> AllValid(Mapped(es, act))
    ensures r.Some? ==> r.value == Overridden(t, Mapped(es, act))
  {
    ghost var acts := Mapped(es, act);
    var cur := t;
    for i := 0 to |es|
      invariant AllValid(acts[..i]) && cur == Overridden(t, acts[..i])
    {
      assert acts[..i + 1][..i] == acts[..i];
      var a := act(es[i]);
      assert a == acts[i];
      if !Valid(a.slot, a.over) {
        return None;
      }
      cur := ApplyOne(cur, a.slot, a.over);
    }
    assert acts[..|acts|] == acts;
    return Some(cur);
  }

  /** Two overrides of the same setting agree: they set the same, or append in either order alike. */
  predicate Agree(k: Slot, v: Override, w: Override) {
    match k
    case Scalar(f) => Canon(f, v.value) == Canon(f, w.value)
    case Named(_, _) => v.value == w.value
    case Replace(_) => v.arr == w.arr
    case SetNoCacheFilter => v.arr == w.arr
    case SetUlimits => v.arr == w.arr
    case AddEntitlements => v.arr + w.arr == w.arr + v.arr
    case AddAnnotations => v.arr + w.arr == w.arr + v.arr
    case Elsewhere => true
    case Malformed => true
  }

  predicate Compatible(e: Act, f: Act) {
    e.slot == f.slot ==> Agree(e.slot, e.over, f.over)
  }

  /** No two entries set the same thing differently. */
  ghost predicate Harmonious(es: seq<Act>) {
    forall i, j :: 0 <= i < j < |es| ==> Compatible(es[i], es[j])
  }

  lemma UpdatesCommute<K, V>(m: map<K, V>, a: K, x: V, b: K, y: V)
    requires a != b || x == y
    ensures m[a := x][b := y] == m[b := y][a := x]
  {
  }

  lemma AppendsCommute(s: seq<string>, a: seq<string>, b: seq<string>)
    ensures s + a + b == s + b + a <==> a + b == b + a
  {
    assert s + a + b == s + (a + b) && s + b + a == s + (b + a);
    if s + (a + b) == s + (b + a) {
      assert a + b == (s + (a + b))[|s|..] == (s + (b + a))[|s|..] == b + a;
    }
  }

  /** Two entries can be exchanged exactly when they are compatible. */
  ghost predicate Exchange(t: Target, k: Slot, v: Override, l: Slot, w: Override) {
    ApplyOne(ApplyOne(t, k, v), l, w) == ApplyOne(ApplyOne(t, l, w), k, v)
  }

  lemma EntriesCommute(e: Entries, k: Slot, v: Override, l: Slot, w: Override)
    requires k == l ==> Agree(k, v, w)
    ensures ApplyEntries(ApplyEntries(e, k, v), l, w) == ApplyEntries(ApplyEntries(e, l, w), k, v)
  {
    if k.Named? && l.Named? && k.kind == l.kind {
      UpdatesCommute(e.args, k.n, Some(v.value), l.n, Some(w.value));
      UpdatesCommute(e.labels, k.n, Some(v.value), l.n, Some(w.value));
      UpdatesCommute(e.contexts, k.n, v.value, l.n, w.value);
    }
  }

  lemma ListsCommute(l: Lists, k: Slot, v: Override, k': Slot, w: Override)
    requires k == k' ==> Agree(k, v, w)
    ensures ApplyLists(ApplyLists(l, k, v), k', w) == ApplyLists(ApplyLists(l, k', w), k, v)
  {
    AppendsCommute(l.entitlements, v.arr, w.arr);
    AppendsCommute(l.annotations, v.arr, w.arr);
  }

  lemma ApplyCommutes(t: Target, k: Slot, v: Override, l: Slot, w: Override)
    requires k == l ==> Agree(k, v, w)
    ensures Exchange(t, k, v, l, w)
  {
    if k.Scalar? && l.Scalar? {
      UpdatesCommute(t.scalars, k.f, Canon(k.f, v.value), l.f, Canon(l.f, w.value));
    }
    if k.Replace? && l.Replace? {
      UpdatesCommute(t.replaced, k.l, v.arr, l.l, w.arr);
    }
    ListsCommute(t.lists, k, v, l, w);
    EntriesCommute(t.entries, k, v, l, w);
  }

  /** Entries that disagree leave a trace of their order. */
  lemma Disagree(t: Target, k: Slot, v: Override, w: Override)
    requires !Agree(k, v, w)
    ensures !Exchange(t, k, v, k, w)
  {
    var a, b := ApplyOne(ApplyOne(t, k, v), k, w), ApplyOne(ApplyOne(t, k, w), k, v);
    match k
    case Scalar(f) => assert a.scalars[f] != b.scalars[f];
    case Named(Args, n) => assert a.entries.args[n] != b.entries.args[n];
    case Named(Labels, n) => assert a.entries.labels[n] != b.entries.labels[n];
    case Named(Contexts, n) => assert a.entries.contexts[n] != b.entries.contexts[n];
    case Replace(l) => assert a.replaced[l] != b.replaced[l];
    case SetNoCacheFilter => assert a.lists.noCacheFilter != b.lists.noCacheFilter;
    case SetUlimits => assert a.lists.ulimits != b.lists.ulimits;
    case AddEntitlements => AppendsCommute(t.lists.entitlements, v.arr, w.arr);
    case AddAnnotations => AppendsCommute(t.lists.annotations, v.arr, w.arr);
  }

  lemma DropHarmonious(es: seq<Act>, i: nat)
    requires i < |es| && Harmonious(es)
    ensures Harmonious(DropAt(es, i))
  {
    var ds := DropAt(es, i);
    forall a, b | 0 <= a < b < |ds| ensures Compatible(ds[a], ds[b]) {
      assert ds[a] == es[if a < i then a else a + 1] && ds[b] == es[if b < i then b else b + 1];
    }
  }

  lemma OneMoreApplied(t: Target, es: seq<Act>, a: Act)
    ensures Overridden(t, es + [a]) == ApplyOne(Overridden(t, es), a.slot, a.over)
  {
    assert (es + [a])[..|es|] == es;
  }

  /** Among harmonious entries any one may be the last. */
  lemma {:induction false} AnyLast(t: Target, es: seq<Act>, i: nat)
    requires i < |es| && Harmonious(es)
    ensures Overridden(t, es) == ApplyOne(Overridden(t, DropAt(es, i)), es[i].slot, es[i].over)
    decreases |es|
  {
    var n := |es| - 1;
    if i == n {
      assert DropAt(es, i) == es[..n];
    } else {
      var rest := DropAt(es[..n], i);
      AnyLast(t, es[..n], i);
      assert DropAt(es, i) == rest + [es[n]] && es == es[..n] + [es[n]];
      OneMoreApplied(t, rest, es[n]);
      assert Compatible(es[i], es[n]);
      ApplyCommutes(Overridden(t, rest), es[i].slot, es[i].over, es[n].slot, es[n].over);
    }
  }

  /** Harmonious entries give the same target in every order. */
  lemma {:induction false} AnyOrder(t: Target, es: seq<Act>, fs: seq<Act>)
    requires Harmonious(fs) && multiset(es) == multiset(fs)
    ensures Overridden(t, es) == Overridden(t, fs)
    decreases |es|
  {
    if es == [] {
      EmptyLike(es, fs);
    } else {
      var i := LastIn(es, fs);
      DropHarmonious(fs, i);
      AnyOrder(t, es[..|es| - 1], DropAt(fs, i));
      AnyLast(t, fs, i);
    }
  }

  lemma LastTwo(t: Target, rest: seq<Act>, e: Act, f: Act)
    ensures Overridden(t, rest + [e] + [f]) == ApplyOne(ApplyOne(Overridden(t, rest), e.slot, e.over), f.slot, f.over)
  {
    var a := rest + [e];
    assert (a + [f])[..|a|] == a && a[..|rest|] == rest;
  }

  /** Two entries moved to the end, in either order. */
  lemma BothLast(es: seq<Entry>, i: nat, j: nat, act: Entry -> Act) returns (a: seq<Entry>, b: seq<Entry>, rest: seq<Act>)
    requires i < j < |es|
    ensures multiset(a) == multiset(b) == multiset(es)
    ensures Mapped(a, act) == rest + [act(es[j])] + [act(es[i])]
    ensures Mapped(b, act) == rest + [act(es[i])] + [act(es[j])]
  {
    var one := DropAt(es, j);
    assert one[i] == es[i];
    var others := DropAt(one, i);
    PutBack(es, j);
    PutBack(one, i);
    a := others + [es[j]] + [es[i]];
    b := others + [es[i]] + [es[j]];
    rest := Mapped(others, act);
    MappedTwo(others, es[j], es[i], act);
    MappedTwo(others, es[i], es[j], act);
  }

  /** With two entries that disagree, two orders give two targets. */
  lemma OrderShows(t: Target, es: seq<Entry>, i: nat, j: nat, act: Entry -> Act) returns (a: seq<Entry>, b: seq<Entry>)
    requires i < j < |es| && !Compatible(act(es[i]), act(es[j]))
    ensures multiset(a) == multiset(b) == multiset(es) && Overridden(t, Mapped(a, act)) != Overridden(t, Mapped(b, act))
  {
    var rest;
    a, b, rest := BothLast(es, i, j, act);
    LastTwoDiffer(t, rest, act(es[i]), act(es[j]));
  }

  lemma LastTwoDiffer(t: Target, rest: seq<Act>, x: Act, y: Act)
    requires !Compatible(x, y)
    ensures Overridden(t, rest + [y] + [x]) != Overridden(t, rest + [x] + [y])
  {
    LastTwo(t, rest, x, y);
    LastTwo(t, rest, y, x);
    Disagree(Overridden(t, rest), x.slot, x.over, y.over);
  }

  /** Whether all overrides are valid does not depend on their order. */
  lemma ValidAnyOrder(es: seq<Entry>, fs: seq<Entry>)
    requires multiset(es) == multiset(fs)
    ensures AllValid(Acts(es)) <==> AllValid(Acts(fs))
  {
    MappedMultiset(es, fs, ActOf);
    if AllValid(Acts(fs)) {
      ValidLike(Acts(es), Acts(fs));
    }
    if AllValid(Acts(es)) {
      ValidLike(Acts(fs), Acts(es));
    }
  }

  lemma ValidLike(a: seq<Act>, b: seq<Act>)
    requires multiset(a) == multiset(b) && AllValid(b)
    ensures AllValid(a)
  {
    forall i | 0 <= i < |a| ensures Valid(a[i].slot, a[i].over) {
      assert a[i] in multiset(b);
    }
  }

  /** Every order of the entries gives the same target. */
  ghost predicate OrderHides(t: Target, es: seq<Entry>, act: Entry -> Act) {
    forall fs :: multiset(fs) == multiset(es) ==> Overridden(t, Mapped(fs, act)) == Overridden(t, Mapped(es, act))
  }

  /** The order of the map does not show exactly when no two entries set the same thing differently. */
  lemma OrderFree(t: Target, es: seq<Entry>)
    ensures OrderHides(t, es, ActOf) <==> Harmonious(Acts(es))
  {
    OrderFreeFor(t, es, ActOf);
  }

  lemma OrderFreeFor(t: Target, es: seq<Entry>, act: Entry -> Act)
    ensures OrderHides(t, es, act) <==> Harmonious(Mapped(es, act))
  {
    if Harmonious(Mapped(es, act)) {
      forall fs | multiset(fs) == multiset(es) ensures Overridden(t, Mapped(fs, act)) == Overridden(t, Mapped(es, act)) {
        MappedMultiset(fs, es, act);
        AnyOrder(t, Mapped(fs, act), Mapped(es, act));
      }
    } else {
      var i, j :| 0 <= i < j < |es| && !Compatible(Mapped(es, act)[i], Mapped(es, act)[j]);
      var a, b := OrderShows(t, es, i, j, act);
    }
  }

  /** Names behind a dot keep entries apart: different keys never set the same argument, label or context. */
  lemma NamedApart(k: string, l: string)
    requires SlotOf(k).Named? && SlotOf(k) == SlotOf(l)
    ensures k == l
  {
    NamedKey(k);
    NamedKey(l);
    KindsApart(CutAt(k, DOT).value.0, CutAt(l, DOT).value.0);
  }

  lemma NamedKey(k: string)
    requires SlotOf(k).Named?
    ensures CutAt(k, DOT).Some? && KindOf(CutAt(k, DOT).value.0) == Some(SlotOf(k).kind) && CutAt(k, DOT).value.1 == SlotOf(k).n
  {
    PlainNotNamed(k);
    if CutAt(k, DOT).Some? {
      PlainNotNamed(CutAt(k, DOT).value.0);
    }
  }

  lemma PlainNotNamed(first: string)
    ensures !PlainSlot(first).Named?
  {
  }

  lemma KindsApart(a: string, b: string)
    requires KindOf(a).Some? && KindOf(a) == KindOf(b)
    ensures a == b
  {
  }

  lemma PlainKey(first: string)
    requires DOT !in first
    ensures SlotOf(first) == PlainSlot(first)
  {
  }

  /** What the keys without a name set. */
  lemma KeysOfBuild()
    ensures SlotOf("context") == Scalar(Context)
    ensures SlotOf("dockerfile") == Scalar(Dockerfile)
    ensures SlotOf("tags") == Replace(Tags)
    ensures SlotOf("target") == Scalar(Stage)
    ensures SlotOf("call") == Scalar(Call)
    ensures SlotOf("platform") == Replace(Platforms)
  {
    PlainKey("context");
    PlainKey("dockerfile");
    PlainKey("tags");
    PlainKey("target");
    PlainKey("call");
    PlainKey("platform");
    assert "call"[0] != "tags"[0];
  }

  lemma KeysOfCaching()
    ensures SlotOf("no-cache") == Scalar(NoCache)
    ensures SlotOf("no-cache-filter") == SetNoCacheFilter
    ensures SlotOf("pull") == Scalar(Pull)
  {
    PlainKey("no-cache");
    PlainKey("no-cache-filter");
    PlainKey("pull");
    assert "no-cache"[0] != "platform"[0];
    assert "pull"[0] != "tags"[0] && "pull"[0] != "call"[0];
  }

  lemma KeysOfRun()
    ensures SlotOf("shm-size") == Scalar(ShmSize)
    ensures SlotOf("network") == Scalar(NetworkMode)
    ensures SlotOf("ulimits") == SetUlimits
  {
    PlainKey("shm-size");
    PlainKey("network");
    PlainKey("ulimits");
    assert "shm-size"[0] != "platform"[0] && "shm-size"[0] != "no-cache"[0];
    assert "network"[0] != "context"[0] && "network"[0] != "ulimits"[0] && "ulimits"[0] != "context"[0];
  }

  lemma KeysOfLists()
    ensures SlotOf("entitlements") == AddEntitlements
    ensures SlotOf("annotations") == AddAnnotations
  {
    PlainKey("entitlements");
    PlainKey("annotations");
  }

  lemma NamedSlot(first: string, k: Kind, n: string)
    requires DOT !in first && KindOf(first) == Some(k)
    ensures SlotOf(first + [DOT] + n) == Named(k, n)
  {
    CutAtFirst(first, n, DOT);
  }

  lemma KeysOfEntries(n: string)
    ensures SlotOf("args" + [DOT] + n) == Named(Args, n)
    ensures SlotOf("labels" + [DOT] + n) == Named(Labels, n)
    ensures SlotOf("contexts" + [DOT] + n) == Named(Contexts, n)
  {
    NamedSlot("args", Args, n);
    NamedSlot("labels", Labels, n);
    NamedSlot("contexts", Contexts, n);
  }

  /** Outside args, labels and contexts, what stands behind a dot is not looked at. */
  lemma SuffixIgnored(first: string, x: string)
    requires DOT !in first && KindOf(first).None?
    ensures SlotOf(first + [DOT] + x) == SlotOf(first) == PlainSlot(first)
  {
    CutAtFirst(first, x, DOT);
  }

  /** So with "context" and "context.x" the order of the map decides, whatever the target and the values. */
  lemma ContextClash(t: Target, x: string, v: Override, w: Override)
    requires v.value != w.value
    ensures var e, f := Entry("context", v), Entry("context" + [DOT] + x, w);
            Overridden(t, Acts([e, f])) != Overridden(t, Acts([f, e]))
  {
    var e, f := Entry("context", v), Entry("context" + [DOT] + x, w);
    ContextSlot(x);
    var a, b := Act(Scalar(Context), v), Act(Scalar(Context), w);
    TwoActs(e, f, a, b);
    TwoActs(f, e, b, a);
    LastTwo(t, [], a, b);
    LastTwo(t, [], b, a);
    Disagree(t, Scalar(Context), v, w);
  }

  lemma TwoActs(e: Entry, f: Entry, a: Act, b: Act)
    requires ActOf(e) == a && ActOf(f) == b
    ensures Acts([e, f]) == [] + [a] + [b]
  {
  }

  lemma ContextSlot(x: string)
    ensures SlotOf("context") == SlotOf("context" + [DOT] + x) == Scalar(Context)
  {
    SuffixIgnored("context", x);
  }

  const HOST_NETWORK := "network.host"

  function AllKept(r: map<ListField, seq<string>>): map<ListField, seq<string>> {
    map l | l in r :: Kept(r[l])
  }

  function NonBlank(m: map<string, string>): map<string, string> {
    map k | k in m && m[k] != "" :: m[k]
  }

  /** Duplicates and empty strings go from all lists, empty contexts go, and host networking asks for its entitlement. */
  function Normalized(t: Target): Target {
    t.(lists := Lists(Kept(t.lists.annotations), Kept(t.lists.noCacheFilter), Kept(t.lists.ulimits),
                      Kept(t.lists.entitlements + if NetworkMode in t.scalars && t.scalars[NetworkMode] == "host" then [HOST_NETWORK] else []),
                      t.lists.inherits),
       replaced := AllKept(t.replaced),
       entries := t.entries.(contexts := NonBlank(t.entries.contexts)))
  }

  lemma {:induction false} KeptTwice(s: seq<string>)
    ensures Kept(Kept(s)) == Kept(s)
  {
    KeptFacts(s);
    NonEmptyAll(Kept(s));
    FirstsOfDistinct(Kept(s));
  }

  /** Normalising twice is normalising once. */
  lemma NormalizeIdempotent(t: Target)
    ensures Normalized(Normalized(t)) == Normalized(t)
  {
    KeptTwice(t.lists.annotations);
    KeptTwice(t.lists.noCacheFilter);
    KeptTwice(t.lists.ulimits);
    var host := NetworkMode in t.scalars && t.scalars[NetworkMode] == "host";
    var ents := t.lists.entitlements + if host then [HOST_NETWORK] else [];
    KeptTwice(ents);
    if host {
      KeptFacts(ents);
      assert ents[|ents| - 1] == HOST_NETWORK && HOST_NETWORK in Kept(ents);
      KeptExtra(Kept(ents), HOST_NETWORK);
    } else {
      assert Kept(ents) + [] == Kept(ents);
    }
    AllKeptTwice(t.replaced);
    NonBlankTwice(t.entries.contexts);
  }

  lemma AllKeptTwice(r: map<ListField, seq<string>>)
    ensures AllKept(AllKept(r)) == AllKept(r)
  {
    forall l | l in r ensures Kept(Kept(r[l])) == Kept(r[l]) {
      KeptTwice(r[l]);
    }
  }

  lemma NonBlankTwice(m: map<string, string>)
    ensures NonBlank(NonBlank(m)) == NonBlank(m)
  {
  }

  /** Appending an element that is already kept changes nothing. */
  lemma KeptExtra(s: seq<string>, x: string)
    requires x in s && x != ""
    ensures Kept(s + [x]) == Kept(s)
  {
    NonEmptyConcat(s, [x]);
    NonEmptyAll([x]);
    NonEmptyElems(s);
    FirstsAbsorb(NonEmpty(s), [x]);
  }
}
