/** Bake targets as values: merging, overriding and normalising their settings. */
module Targets {
  import opened Common
  import opened Slices

  /** Settings with one value; an unset pointer or empty description is a missing key. */
  datatype Field = Context | Dockerfile | DockerfileInline | Stage | Call | NetworkMode | ShmSize | Pull | NoCache | Description

  /** Lists that are replaced as a whole; an unset list is a missing key. */
  datatype ListField = Tags | Platforms

  /** Lists that are appended to. */
  datatype Lists = Lists(annotations: seq<string>, noCacheFilter: seq<string>, ulimits: seq<string>,
                         entitlements: seq<string>, inherits: seq<string>)

  /** Named entries; an argument or label may be present without a value. */
  datatype Entries = Entries(args: map<string, Option<string>>, labels: map<string, Option<string>>, contexts: map<string, string>)

  datatype Target = Target(name: string, scalars: map<Field, string>, replaced: map<ListField, seq<string>>,
                           lists: Lists, entries: Entries)

  function DefaultTarget(): Target {
    Target("", map[], map[], Lists([], [], [], [], []), Entries(map[], map[], map[]))
  }

  /** Entries of the right map win, except those without a value. */
  function PickEntries(a: map<string, Option<string>>, b: map<string, Option<string>>): map<string, Option<string>> {
    a + (map k | k in b && b[k].Some? :: b[k])
  }

  function MergedLists(a: Lists, b: Lists): Lists {
    Lists(a.annotations + b.annotations, a.noCacheFilter + b.noCacheFilter, a.ulimits + b.ulimits,
          a.entitlements + b.entitlements, a.inherits + b.inherits)
  }

  function MergedEntries(a: Entries, b: Entries): Entries {
    Entries(PickEntries(a.args, b.args), PickEntries(a.labels, b.labels), a.contexts + b.contexts)
  }

  /** What Merge makes of `a` and `b`; the name of `a` is kept. */
  function Merged(a: Target, b: Target): Target {
    Target(a.name, a.scalars + b.scalars, a.replaced + b.replaced, MergedLists(a.lists, b.lists), MergedEntries(a.entries, b.entries))
  }

  lemma PickEntriesAssoc(a: map<string, Option<string>>, b: map<string, Option<string>>, c: map<string, Option<string>>)
    ensures PickEntries(PickEntries(a, b), c) == PickEntries(a, PickEntries(b, c))
  {
    var l, r := PickEntries(PickEntries(a, b), c), PickEntries(a, PickEntries(b, c));
    forall k ensures (k in l <==> k in r) && (k in l ==> l[k] == r[k]) {
    }
  }

  lemma ListsAssoc(a: Lists, b: Lists, c: Lists)
    ensures MergedLists(MergedLists(a, b), c) == MergedLists(a, MergedLists(b, c))
  {
    ConcatAssoc(a.annotations, b.annotations, c.annotations);
    ConcatAssoc(a.noCacheFilter, b.noCacheFilter, c.noCacheFilter);
    ConcatAssoc(a.ulimits, b.ulimits, c.ulimits);
    ConcatAssoc(a.entitlements, b.entitlements, c.entitlements);
    ConcatAssoc(a.inherits, b.inherits, c.inherits);
  }

  lemma OverlayAssoc<K, V>(a: map<K, V>, b: map<K, V>, c: map<K, V>)
    ensures (a + b) + c == a + (b + c)
  {
  }

  /** Merging three targets does not depend on which two are merged first. */
  lemma MergeAssociative(a: Target, b: Target, c: Target)
    ensures Merged(Merged(a, b), c) == Merged(a, Merged(b, c))
  {
    OverlayAssoc(a.scalars, b.scalars, c.scalars);
    OverlayAssoc(a.replaced, b.replaced, c.replaced);
    ListsAssoc(a.lists, b.lists, c.lists);
    PickEntriesAssoc(a.entries.args, b.entries.args, c.entries.args);
    PickEntriesAssoc(a.entries.labels, b.entries.labels, c.entries.labels);
    OverlayAssoc(a.entries.contexts, b.entries.contexts, c.entries.contexts);
  }

  /** A target under construction, changed in place by Merge. */
  class TargetObject {
    var name: string
    var scalars: map<Field, string>
    var replaced: map<ListField, seq<string>>
    var lists: Lists
    var entries: Entries

    function View(): Target
      reads this
    {
      Target(name, scalars, replaced, lists, entries)
    }

    constructor ()
      ensures View() == DefaultTarget()
    {
      name, scalars, replaced := "", map[], map[];
      lists, entries := Lists([], [], [], [], []), Entries(map[], map[], map[]);
    }

    method Merge(t2: Target)
      modifies this
      ensures View() == Merged(old(View()), t2)
    {
      scalars := scalars + t2.scalars;
      var args := MergeEntries(entries.args, t2.entries.args);
      var contexts := MergeContexts(entries.contexts, t2.entries.contexts);
      var labels := MergeEntries(entries.labels, t2.entries.labels);
      entries := Entries(args, labels, contexts);
      replaced := replaced + t2.replaced;
      lists := Lists(lists.annotations + t2.lists.annotations, lists.noCacheFilter + t2.lists.noCacheFilter,
                     lists.ulimits + t2.lists.ulimits, lists.entitlements + t2.lists.entitlements, lists.inherits + t2.lists.inherits);
    }
  }

  function Without<K, V>(m: map<K, V>, todo: set<K>): map<K, V> {
    map k | k in m && k !in todo :: m[k]
  }

  lemma WithoutNone<K, V>(m: map<K, V>)
    ensures Without(m, {}) == m
  {
  }

  lemma PickStep(a: map<string, Option<string>>, b: map<string, Option<string>>, todo: set<string>, k: string)
    requires k in b && k in todo
    ensures var r := PickEntries(a, Without(b, todo));
            PickEntries(a, Without(b, todo - {k})) == if b[k].Some? then r[k := b[k]] else r
  {
    var r := PickEntries(a, Without(b, todo));
    var l := PickEntries(a, Without(b, todo - {k}));
    var e := if b[k].Some? then r[k := b[k]] else r;
    forall x ensures (x in l <==> x in e) && (x in l ==> l[x] == e[x]) {
    }
  }

  method MergeEntries(a: map<string, Option<string>>, b: map<string, Option<string>>) returns (r: map<string, Option<string>>)
    ensures r == PickEntries(a, b)
  {
    r := a;
    var todo := b.Keys;
    assert PickEntries(a, Without(b, todo)) == a;
    while todo != {}
      invariant todo <= b.Keys
      invariant r == PickEntries(a, Without(b, todo))
      decreases |todo|
    {
      var k :| k in todo;
      PickStep(a, b, todo, k);
      if b[k].Some? {
        r := r[k := b[k]];
      }
      OneMoreDone(b.Keys, todo, k);
      todo := todo - {k};
    }
    WithoutNone(b);
  }

  lemma OverlayStep(a: map<string, string>, b: map<string, string>, todo: set<string>, k: string)
    requires k in b && k in todo
    ensures a + Without(b, todo - {k}) == (a + Without(b, todo))[k := b[k]]
  {
  }

  method MergeContexts(a: map<string, string>, b: map<string, string>) returns (r: map<string, string>)
    ensures r == a + b
  {
    r := a;
    var todo := b.Keys;
    assert a + Without(b, todo) == a;
    while todo != {}
      invariant todo <= b.Keys
      invariant r == a + Without(b, todo)
      decreases |todo|
    {
      var k :| k in todo;
      OverlayStep(a, b, todo, k);
      r := r[k := b[k]];
      OneMoreDone(b.Keys, todo, k);
      todo := todo - {k};
    }
    WithoutNone(b);
  }
}
