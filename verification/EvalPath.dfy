/**
 Following a path through a file system, link by link, as far as it exists. The
 path walked so far is kept as a string in which some ".." stay; the simple form
 below keeps the components of the place reached instead.
 */
module EvalPath {
  import opened Common
  import opened Texts
  import opened Paths

  /** What is found at a place; a link whose target cannot be read has none. */
  datatype Kind = Missing | Broken | Directory | OtherFile | Link(target: Target)
  datatype Target = Readable(path: string) | Unreadable

  type FileSystem = seq<string> -> Kind

  datatype Error = LstatFailed | NotADirectory | TooManyLinks | ReadlinkFailed

  datatype Outcome = Found(at: seq<string>, rest: string) | Failed(error: Error)

  const MAX_LINKS := 255

  /** The first position from `i` on that is not a separator. */
  function SkipFrom(s: string, i: nat): (k: nat)
    requires i <= |s|
    ensures i <= k <= |s| && (k < |s| ==> s[k] != SEP)
    decreases |s| - i
  {
    if i < |s| && s[i] == SEP then SkipFrom(s, i + 1) else i
  }

  /** The end of the component that begins at `i`. */
  function EndFrom(s: string, i: nat): (k: nat)
    requires i <= |s|
    ensures i <= k <= |s| && (k < |s| ==> s[k] == SEP) && forall j :: i <= j < k ==> s[j] != SEP
    decreases |s| - i
  {
    if i < |s| && s[i] != SEP then EndFrom(s, i + 1) else i
  }

  /** Walking on from the place `at` with what `s` holds from position `i` on. */
  function Walk(fs: FileSystem, at: seq<string>, s: string, i: nat, links: nat): Outcome
    requires i <= |s| && links <= MAX_LINKS
    decreases MAX_LINKS - links, |s| - i
  {
    var start := SkipFrom(s, i);
    var end := EndFrom(s, start);
    var c := s[start..end];
    if end == start then Found(at, "")
    else if c == "." then Walk(fs, at, s, end, links)
    else if c == ".." then Walk(fs, Up(at), s, end, links)
    else
      match fs(at + [c])
      case Missing => Found(at, s[start..])
      case Broken => Failed(LstatFailed)
      case Directory => Walk(fs, at + [c], s, end, links)
      case OtherFile => if end < |s| then Failed(NotADirectory) else Found(at + [c], "")
      case Link(t) =>
        if links == MAX_LINKS then Failed(TooManyLinks)
        else
          match t
          case Unreadable => Failed(ReadlinkFailed)
          case Readable(l) =>
            if l != "" && l[0] == SEP then Walk(fs, [], l + s[end..], 1, links + 1)
            else Walk(fs, at, l + s[end..], 0, links + 1)
  }

  predicate Real(k: Kind) {
    k.Directory? || k.OtherFile?
  }

  ghost predicate AllDirectories(fs: FileSystem, at: seq<string>) {
    forall k :: 0 < k <= |at| ==> fs(at[..k]).Directory?
  }

  /** Every place on the way exists and is not a link; all but the last are directories. */
  ghost predicate AllReal(fs: FileSystem, at: seq<string>) {
    forall k :: 0 < k <= |at| ==> Real(fs(at[..k])) && (k < |at| ==> fs(at[..k]).Directory?)
  }

  lemma OneMoreDirectory(fs: FileSystem, at: seq<string>, c: string)
    requires AllDirectories(fs, at)
    ensures fs(at + [c]).Directory? ==> AllDirectories(fs, at + [c])
    ensures Real(fs(at + [c])) ==> AllReal(fs, at + [c])
    ensures AllDirectories(fs, Up(at)) && AllReal(fs, at)
  {
    var b := at + [c];
    assert forall k :: 0 < k <= |at| ==> b[..k] == at[..k];
    assert b[..|b|] == b;
    assert forall k :: 0 < k <= |Up(at)| ==> Up(at)[..k] == at[..k];
  }

  /** The first component of what is left is missing in the directory reached. */
  ghost predicate MissesFirst(fs: FileSystem, at: seq<string>, rest: string) {
    var c := rest[..EndFrom(rest, 0)];
    Proper(c) && c != "." && c != ".." && AllDirectories(fs, at) && fs(at + [c]).Missing?
  }

  /** Everything on the way exists, and what is left begins with something that does not. */
  ghost predicate EndsWell(fs: FileSystem, r: Outcome) {
    r.Found? ==> AllReal(fs, r.at) && (r.rest != "" ==> MissesFirst(fs, r.at, r.rest))
  }

  /** Every walk ends well. */
  lemma {:induction false} WalkEnds(fs: FileSystem, at: seq<string>, s: string, i: nat, links: nat)
    requires i <= |s| && links <= MAX_LINKS && AllDirectories(fs, at)
    ensures EndsWell(fs, Walk(fs, at, s, i, links))
    decreases MAX_LINKS - links, |s| - i
  {
    var start := SkipFrom(s, i);
    var end := EndFrom(s, start);
    var c := s[start..end];
    OneMoreDirectory(fs, at, c);
    if end == start {
    } else if c == "." {
      WalkEnds(fs, at, s, end, links);
    } else if c == ".." {
      WalkEnds(fs, Up(at), s, end, links);
    } else {
      match fs(at + [c])
      case Missing =>
        MissingEnds(fs, at, s, start);
      case Broken =>
      case Directory => WalkEnds(fs, at + [c], s, end, links);
      case OtherFile =>
      case Link(t) =>
        if links < MAX_LINKS && t.Readable? {
          if t.path != "" && t.path[0] == SEP {
            WalkEnds(fs, [], t.path + s[end..], 1, links + 1);
          } else {
            WalkEnds(fs, at, t.path + s[end..], 0, links + 1);
          }
        }
    }
  }

  lemma MissingEnds(fs: FileSystem, at: seq<string>, s: string, start: nat)
    requires start < |s| && s[start] != SEP && AllDirectories(fs, at)
    requires var c := s[start..EndFrom(s, start)]; c != "." && c != ".." && fs(at + [c]).Missing?
    ensures EndsWell(fs, Found(at, s[start..]))
  {
    FirstOf(s, start);
    OneMoreDirectory(fs, at, "");
  }

  lemma {:induction false} EndShifts(s: string, start: nat, k: nat)
    requires start + k <= |s|
    ensures EndFrom(s[start..], k) + start == EndFrom(s, start + k)
    decreases |s| - start - k
  {
    if start + k < |s| {
      EndShifts(s, start, k + 1);
    }
  }

  lemma FirstOf(s: string, start: nat)
    requires start < |s| && s[start] != SEP
    ensures s[start..][..EndFrom(s[start..], 0)] == s[start..EndFrom(s, start)] && Proper(s[start..EndFrom(s, start)])
  {
    EndShifts(s, start, 0);
  }

  /** What the system finds at a path string. */
  function Lstat(fs: FileSystem, p: string): Kind {
    fs(Norm(Comps(p)))
  }

  /** Components that a walk can leave behind. */
  ghost predicate Trail(ds: seq<string>) {
    AllProper(ds) && forall i :: 0 <= i < |ds| ==> ds[i] != "."
  }

  /** On a path with ".." left in it, every other component exists and is not a link. */
  ghost predicate RealDots(fs: FileSystem, ds: seq<string>) {
    forall k :: 0 < k <= |ds| && ds[k - 1] != ".." ==> Real(fs(Norm(ds[..k])))
  }

  /** The string kept by the walk. */
  ghost predicate Kept(fs: FileSystem, dest: string, ds: seq<string>) {
    dest == Render(ds) && Trail(ds) && RealDots(fs, ds)
  }

  lemma KeptWithoutLast(fs: FileSystem, ds: seq<string>)
    requires Trail(ds) && RealDots(fs, ds) && ds != []
    ensures Trail(ds[..|ds| - 1]) && RealDots(fs, ds[..|ds| - 1])
  {
    var t := ds[..|ds| - 1];
    assert forall k :: 0 < k <= |t| ==> t[..k] == ds[..k];
  }

  lemma KeptWithUp(fs: FileSystem, ds: seq<string>)
    requires Trail(ds) && RealDots(fs, ds)
    ensures Trail(ds + [".."]) && RealDots(fs, ds + [".."]) && Norm(ds + [".."]) == Up(Norm(ds))
  {
    var t := ds + [".."];
    assert t[..|ds|] == ds;
    assert forall k :: 0 < k <= |ds| ==> t[..k] == ds[..k];
  }

  lemma KeptWithName(fs: FileSystem, ds: seq<string>, c: string)
    requires Trail(ds) && Proper(c) && c != "." && c != ".."
    ensures Trail(ds + [c]) && Norm(ds + [c]) == Norm(ds) + [c]
    ensures Lstat(fs, Render(ds + [c])) == fs(Norm(ds) + [c])
    ensures RealDots(fs, ds) && Real(fs(Norm(ds) + [c])) ==> RealDots(fs, ds + [c])
  {
    NormOneMore(ds, c);
    CompsRender(ds + [c]);
    if RealDots(fs, ds) && Real(fs(Norm(ds) + [c])) {
      RealOneMore(fs, ds, c);
    }
  }

  lemma RealOneMore(fs: FileSystem, ds: seq<string>, c: string)
    requires RealDots(fs, ds) && Real(fs(Norm(ds + [c])))
    ensures RealDots(fs, ds + [c])
  {
    var t := ds + [c];
    forall k | 0 < k <= |t| && t[k - 1] != ".." ensures Real(fs(Norm(t[..k]))) {
      if k == |t| {
        assert t[..k] == t;
      } else {
        assert t[..k] == ds[..k] && t[k - 1] == ds[k - 1];
      }
    }
  }

  method SkipSeparators(s: string, i: nat) returns (k: nat)
    requires i <= |s|
    ensures k == SkipFrom(s, i)
  {
    k := i;
    while k < |s| && s[k] == SEP
      invariant i <= k <= |s| && SkipFrom(s, k) == SkipFrom(s, i)
    {
      k := k + 1;
    }
  }

  method ComponentEnd(s: string, i: nat) returns (k: nat)
    requires i <= |s|
    ensures k == EndFrom(s, i)
  {
    k := i;
    while k < |s| && s[k] != SEP
      invariant i <= k <= |s| && EndFrom(s, k) == EndFrom(s, i)
    {
      k := k + 1;
    }
  }

  /** `r` is the last separator of `s` behind the leading one, or 0. */
  ghost predicate IsLastSep(s: string, r: nat) {
    (r > 0 ==> r < |s| && s[r] == SEP) && forall k :: r < k < |s| ==> s[k] != SEP
  }

  method LastSeparator(s: string) returns (r: nat)
    requires s != ""
    ensures IsLastSep(s, r)
  {
    r := |s| - 1;
    while r >= 1 && s[r] != SEP
      invariant forall k :: r < k < |s| ==> s[k] != SEP
    {
      r := r - 1;
    }
  }

  /** Where the last separator of a rendered path is. */
  lemma LastSepOfRender(ds: seq<string>, r: nat)
    requires Trail(ds) && IsLastSep(Render(ds), r)
    ensures |ds| <= 1 ==> r == 0
    ensures |ds| >= 2 ==> r > 0 && Render(ds)[..r] == Render(ds[..|ds| - 1]) && Render(ds)[r + 1..] == ds[|ds| - 1]
  {
    if |ds| == 1 {
      assert [SEP] + ds[0] == "" + [SEP] + ds[0];
      LastSepAt("", ds[0], r);
    } else if |ds| >= 2 {
      LastSepAt(Render(ds[..|ds| - 1]), ds[|ds| - 1], r);
    }
  }

  lemma LastSepAt(p: string, c: string, r: nat)
    requires SEP !in c && IsLastSep(p + [SEP] + c, r)
    ensures r == |p| && (p + [SEP] + c)[..r] == p && (p + [SEP] + c)[r + 1..] == c
  {
    var s := p + [SEP] + c;
    assert s[|p|] == SEP;
  }

  /** The path without its last component. */
  method Parent(dest: string, ghost ds: seq<string>) returns (d: string)
    requires dest == Render(ds) && Trail(ds) && ds != []
    ensures d == Render(ds[..|ds| - 1])
  {
    var r := LastSeparator(dest);
    LastSepOfRender(ds, r);
    d := if r < 1 then [SEP] else dest[..r];
    assert |ds| == 1 ==> ds[..0] == [];
  }

  /** The path one level up; a ".." is kept where nothing can be dropped. */
  method GoUp(fs: FileSystem, dest: string, ghost ds: seq<string>) returns (d: string, ghost up: seq<string>)
    requires Kept(fs, dest, ds)
    ensures Kept(fs, d, up) && Norm(up) == Up(Norm(ds))
    ensures Norm(Comps(d)) == Up(Norm(Comps(dest)))
  {
    CompsRender(ds);
    var r := LastSeparator(dest);
    LastSepOfRender(ds, r);
    KeptWithUp(fs, ds);
    if r < 1 || dest[r + 1..] == ".." {
      d := dest;
      if |dest| > 1 {
        d := d + [SEP];
      }
      d := d + "..";
      up := ds + [".."];
      assert up[..|ds|] == ds;
    } else {
      d := dest[..r];
      up := ds[..|ds| - 1];
      KeptWithoutLast(fs, ds);
      assert Norm(ds) == Norm(up) + [ds[|ds| - 1]];
    }
    CompsRender(up);
  }

  /** The path with one more component. */
  method GoInto(dest: string, c: string, ghost ds: seq<string>) returns (d: string)
    requires dest == Render(ds) && Trail(ds)
    ensures d == Render(ds + [c])
  {
    d := dest;
    RenderEnds(ds);
    RenderOneMore(ds, c);
    if d[|d| - 1] != SEP {
      d := d + [SEP];
    }
    d := d + c;
  }

  lemma RenderOneMore(ds: seq<string>, c: string)
    ensures Render(ds + [c]) == if ds == [] then [SEP] + c else Render(ds) + [SEP] + c
  {
    assert (ds + [c])[..|ds|] == ds;
  }

  lemma RenderEnds(ds: seq<string>)
    requires AllProper(ds)
    ensures Render(ds)[|Render(ds)| - 1] == SEP <==> ds == []
  {
    if ds != [] {
      var s, c := Render(ds), ds[|ds| - 1];
      assert s[|s| - 1] == c[|c| - 1];
    }
  }

  datatype Evaluated = Exists(path: string, rest: string) | Error(error: Error)

  /** The outcome of the evaluation agrees with that of a walk. */
  ghost predicate Agrees(fs: FileSystem, w: Outcome, r: Evaluated) {
    match w
    case Failed(e) => r == Error(e)
    case Found(at, rest) =>
      r.Exists? && r.rest == rest && Norm(Comps(r.path)) == at && RealDots(fs, Comps(r.path)) &&
      (rest == "" ==> r.path == Render(at))
  }

  /** The walk of the whole input goes on from here. */
  ghost predicate Going(fs: FileSystem, w: Outcome, s: string, i: nat, links: nat, dest: string, ds: seq<string>) {
    i <= |s| && links <= MAX_LINKS && Kept(fs, dest, ds) && Continues(fs, w, Norm(ds), s, i, links)
  }

  /** The rest of a walk whose outcome is `w`. */
  ghost predicate Continues(fs: FileSystem, w: Outcome, at: seq<string>, s: string, i: nat, links: nat)
    requires i <= |s| && links <= MAX_LINKS
  {
    forall j :: j == i ==> Walk(fs, at, s, j, links) == w
  }

  /** One step of a walk, case by case. */
  lemma WalkStep(fs: FileSystem, w: Outcome, at: seq<string>, s: string, i: nat, links: nat)
    requires i <= |s| && links <= MAX_LINKS && Continues(fs, w, at, s, i, links)
    ensures var start := SkipFrom(s, i); var end := EndFrom(s, start); var c := s[start..end];
            if end == start then w == Found(at, "")
            else if c == "." then Continues(fs, w, at, s, end, links)
            else if c == ".." then Continues(fs, w, Up(at), s, end, links)
            else
              match fs(at + [c])
              case Missing => w == Found(at, s[start..])
              case Broken => w == Failed(LstatFailed)
              case Directory => Continues(fs, w, at + [c], s, end, links)
              case OtherFile =>
                if end < |s| then w == Failed(NotADirectory) else w == Found(at + [c], "") && Continues(fs, w, at + [c], s, end, links)
              case Link(t) =>
                if links == MAX_LINKS then w == Failed(TooManyLinks)
                else if t.Unreadable? then w == Failed(ReadlinkFailed)
                else if t.path != "" && t.path[0] == SEP then Continues(fs, w, [], t.path + s[end..], 1, links + 1)
                else Continues(fs, w, at, t.path + s[end..], 0, links + 1)
  {
    assert Walk(fs, at, s, i, links) == w;
  }

  lemma WalkDone(fs: FileSystem, w: Outcome, at: seq<string>, s: string, links: nat)
    requires links <= MAX_LINKS && Continues(fs, w, at, s, |s|, links)
    ensures w == Found(at, "")
  {
    assert Walk(fs, at, s, |s|, links) == w;
  }

  /** The path returned when a component is missing. */
  lemma MissingAgrees(fs: FileSystem, ds: seq<string>, rest: string)
    requires Trail(ds) && RealDots(fs, ds) && rest != ""
    ensures Agrees(fs, Found(Norm(ds), rest), Exists(Render(ds), rest))
  {
    CompsRender(ds);
  }

  /** The path returned when everything exists. */
  lemma FoundAgrees(fs: FileSystem, ds: seq<string>)
    requires Trail(ds) && AllReal(fs, Norm(ds))
    ensures Agrees(fs, Found(Norm(ds), ""), Exists(Clean(Render(ds)), ""))
  {
    var n := Norm(ds);
    CompsRender(ds);
    NormProper(ds);
    RealWithoutDots(fs, n);
    CleanRendered(n);
  }

  predicate Normal(cs: seq<string>) {
    forall i :: 0 <= i < |cs| ==> cs[i] != "." && cs[i] != ".."
  }

  lemma CleanRendered(n: seq<string>)
    requires AllProper(n) && Normal(n)
    ensures Comps(Render(n)) == n && Norm(n) == n
  {
    CompsRender(n);
    NormOfNormal(n);
  }

  lemma RealWithoutDots(fs: FileSystem, n: seq<string>)
    requires AllReal(fs, n) && Normal(n)
    ensures RealDots(fs, n)
  {
    forall k | 0 < k <= |n| ensures Real(fs(Norm(n[..k]))) {
      NormOfNormal(n[..k]);
    }
  }

  /** Where the loop goes on, or its result. */
  datatype Next = Stop(result: Evaluated) | Go(s: string, start: nat, links: nat, dest: string)

  /** A symbolic link: its target takes the place of the component. */
  method FollowLink(fs: FileSystem, ghost w: Outcome, s: string, end: nat, links: nat, dest: string, t: Target, ghost ds: seq<string>, c: string)
      returns (n: Next, ghost ds': seq<string>)
    requires end <= |s| && links <= MAX_LINKS && Trail(ds + [c]) && dest == Render(ds + [c]) && Kept(fs, Render(ds), ds)
    requires if links == MAX_LINKS then w == Failed(TooManyLinks)
             else if t.Unreadable? then w == Failed(ReadlinkFailed)
             else if t.path != "" && t.path[0] == SEP then Continues(fs, w, [], t.path + s[end..], 1, links + 1)
             else Continues(fs, w, Norm(ds), t.path + s[end..], 0, links + 1)
    ensures n.Stop? ==> Agrees(fs, w, n.result)
    ensures n.Go? ==> Going(fs, w, n.s, n.start, n.links, n.dest, ds') && n.links == links + 1
  {
    ds' := ds;
    if links + 1 > MAX_LINKS {
      return Stop(Error(TooManyLinks)), ds';
    }
    if t.Unreadable? {
      return Stop(Error(ReadlinkFailed)), ds';
    }
    var link := t.path;
    if |link| > 0 && link[0] == SEP {
      ds' := [];
      n := Go(link + s[end..], 1, links + 1, link[..1]);
    } else {
      var d := Parent(dest, ds + [c]);
      assert (ds + [c])[..|ds|] == ds;
      n := Go(link + s[end..], 0, links + 1, d);
    }
  }

  /** A component that is neither "." nor "..". */
  method GoThrough(fs: FileSystem, ghost w: Outcome, s: string, i: nat, start: nat, end: nat, links: nat, dest: string, ghost ds: seq<string>)
      returns (n: Next, ghost ds': seq<string>)
    requires Going(fs, w, s, i, links, dest, ds) && start == SkipFrom(s, i) && end == EndFrom(s, start)
    requires start < end && s[start..end] != "." && s[start..end] != ".."
    ensures n.Stop? ==> Agrees(fs, w, n.result)
    ensures n.Go? ==> Going(fs, w, n.s, n.start, n.links, n.dest, ds')
    ensures n.Go? && n.links == links ==> n.s == s && n.start == end
    ensures n.Go? ==> n.links >= links
  {
    var c := s[start..end];
    WalkStep(fs, w, Norm(ds), s, i, links);
    KeptWithName(fs, ds, c);
    ds' := ds + [c];
    var d := GoInto(dest, c, ds);
    match Lstat(fs, d)
    case Missing =>
      var path := Parent(d, ds');
      assert ds'[..|ds|] == ds;
      MissingAgrees(fs, ds, s[start..]);
      n := Stop(Exists(path, s[start..]));
    case Broken => n := Stop(Error(LstatFailed));
    case Directory => n := Go(s, end, links, d);
    case OtherFile => n := if end < |s| then Stop(Error(NotADirectory)) else Go(s, end, links, d);
    case Link(t) => n, ds' := FollowLink(fs, w, s, end, links, d, t, ds, c);
  }

  method EvaluateToExistingPath(fs: FileSystem, input: string) returns (r: Evaluated)
    requires input != "" && input[0] == SEP
    ensures Agrees(fs, Walk(fs, [], input, 1, 0), r)
  {
    ghost var w := Walk(fs, [], input, 1, 0);
    var s, dest := input, [SEP];
    var links: nat, start: nat := 0, 1;
    ghost var ds: seq<string> := [];
    while start < |s|
      invariant Going(fs, w, s, start, links, dest, ds)
      decreases MAX_LINKS - links, |s| - start
    {
      WalkStep(fs, w, Norm(ds), s, start, links);
      var from := SkipSeparators(s, start);
      var end := ComponentEnd(s, from);
      if end == from {
        break;
      } else if s[from..end] == "." {
        start := end;
      } else if s[from..end] == ".." {
        dest, ds := GoUp(fs, dest, ds);
        start := end;
      } else {
        var n;
        n, ds := GoThrough(fs, w, s, start, from, end, links, dest, ds);
        if n.Stop? {
          return n.result;
        }
        s, start, links, dest := n.s, n.start, n.links, n.dest;
      }
    }
    if start == |s| {
      WalkDone(fs, w, Norm(ds), s, links);
    }
    WalkEnds(fs, [], input, 1, 0);
    FoundAgrees(fs, ds);
    r := Exists(Clean(dest), "");
  }

  /** A place told by components without dots. */
  ghost predicate Place(at: seq<string>) {
    AllProper(at) && Normal(at)
  }

  lemma PlaceOneMore(at: seq<string>, c: string)
    requires Place(at)
    ensures Place(Up(at)) && (Proper(c) && c != "." && c != ".." ==> Place(at + [c]))
  {
  }

  ghost predicate EndsAtPlace(r: Outcome) {
    r.Found? ==> Place(r.at)
  }

  /** A walk ends at a place without dots. */
  lemma {:induction false} WalkNormal(fs: FileSystem, at: seq<string>, s: string, i: nat, links: nat)
    requires i <= |s| && links <= MAX_LINKS && Place(at)
    ensures EndsAtPlace(Walk(fs, at, s, i, links))
    decreases MAX_LINKS - links, |s| - i
  {
    var start := SkipFrom(s, i);
    var end := EndFrom(s, start);
    var c := s[start..end];
    PlaceOneMore(at, c);
    if end == start {
    } else if c == "." {
      WalkNormal(fs, at, s, end, links);
    } else if c == ".." {
      WalkNormal(fs, Up(at), s, end, links);
    } else {
      FirstOf(s, start);
      match fs(at + [c])
      case Directory => WalkNormal(fs, at + [c], s, end, links);
      case Link(t) =>
        if links < MAX_LINKS && t.Readable? {
          if t.path != "" && t.path[0] == SEP {
            WalkNormal(fs, [], t.path + s[end..], 1, links + 1);
          } else {
            WalkNormal(fs, at, t.path + s[end..], 0, links + 1);
          }
        }
      case _ =>
    }
  }

  /** Where component `k` of a rendered path begins and ends. */
  function BeginOf(n: seq<string>, k: nat): nat
    requires k < |n|
  {
    if k == 0 then 1 else |Render(n[..k])| + 1
  }

  function EndOf(n: seq<string>, k: nat): nat
    requires k < |n|
  {
    |Render(n[..k + 1])|
  }

  /** A rendered path with one component more goes on behind a separator. */
  lemma RenderGoesOn(n: seq<string>, c: string)
    requires n != []
    ensures var s, p := Render(n + [c]), Render(n); |p| < |s| && s[..|p|] == p && s[|p|] == SEP && s[|p| + 1..] == c
  {
    assert (n + [c])[..|n|] == n;
  }

  lemma {:induction false} RenderBegins(n: seq<string>, k: nat)
    requires 0 < k <= |n|
    ensures |Render(n[..k])| <= |Render(n)| && Render(n)[..|Render(n[..k])|] == Render(n[..k])
    ensures k < |n| ==> |Render(n[..k])| < |Render(n)| && Render(n)[|Render(n[..k])|] == SEP
  {
    if k == |n| {
      assert n[..k] == n;
    } else {
      var t, i := n[..|n| - 1], |Render(n[..k])|;
      assert n == t + [n[|n| - 1]] && t[..k] == n[..k];
      RenderGoesOn(t, n[|n| - 1]);
      RenderBegins(t, k);
      assert Render(n)[..i] == Render(t)[..i];
      assert k == |t| ==> t[..k] == t;
    }
  }

  lemma RenderLast(n: seq<string>, k: nat)
    requires k < |n|
    ensures BeginOf(n, k) <= EndOf(n, k) && Render(n[..k + 1])[BeginOf(n, k)..] == n[k]
  {
    var m := n[..k + 1];
    assert m == n[..k] + [n[k]];
    if k > 0 {
      RenderGoesOn(n[..k], n[k]);
    }
  }

  /** Component `k` of a rendered path, with what stands around it. */
  lemma RenderAt(n: seq<string>, k: nat)
    requires k < |n|
    ensures var s, b, e := Render(n), BeginOf(n, k), EndOf(n, k);
            b <= e <= |s| && s[b..e] == n[k] && (e < |s| ==> s[e] == SEP) && (k > 0 ==> s[b - 1] == SEP)
  {
    RenderBegins(n, k + 1);
    RenderLast(n, k);
    var s, b, e := Render(n), BeginOf(n, k), EndOf(n, k);
    assert s[b..e] == s[..e][b..];
    if k > 0 {
      RenderBegins(n, k);
    }
    assert k + 1 == |n| ==> n[..k + 1] == n;
  }

  lemma {:induction false} EndIs(s: string, b: nat, e: nat)
    requires b <= e <= |s| && SEP !in s[b..e] && (e < |s| ==> s[e] == SEP)
    ensures EndFrom(s, b) == e
    decreases e - b
  {
    if b < e {
      assert s[b] == s[b..e][0] && s[b + 1..e] == s[b..e][1..];
      EndIs(s, b + 1, e);
    }
  }

  /** A resolved path leads to itself, without a link on the way. */
  lemma {:induction false} WalkAlong(fs: FileSystem, n: seq<string>, k: nat)
    requires k <= |n| && Place(n) && AllReal(fs, n) && |Render(n[..k])| <= |Render(n)|
    ensures Walk(fs, n[..k], Render(n), |Render(n[..k])|, 0) == Found(n, "")
    decreases |n| - k
  {
    var s, i := Render(n), |Render(n[..k])|;
    if k == |n| {
      assert n[..k] == n;
    } else {
      RenderAt(n, k);
      ComponentAt(s, i, BeginOf(n, k), EndOf(n, k), n[k]);
      assert n[..k] + [n[k]] == n[..k + 1];
      WalkInto(fs, n[..k], s, i, BeginOf(n, k), EndOf(n, k), n[k]);
      WalkAlong(fs, n, k + 1);
    }
  }

  /** One component that exists and is no link. */
  lemma WalkInto(fs: FileSystem, at: seq<string>, s: string, i: nat, b: nat, e: nat, c: string)
    requires i <= b < e <= |s| && s[b..e] == c && c != "." && c != ".." && SkipFrom(s, i) == b && EndFrom(s, b) == e
    requires fs(at + [c]).Directory? || (fs(at + [c]).OtherFile? && e == |s|)
    ensures Walk(fs, at, s, i, 0) == Walk(fs, at + [c], s, e, 0)
  {
  }

  /** The component that the walk reads next. */
  lemma ComponentAt(s: string, i: nat, b: nat, e: nat, c: string)
    requires i <= b <= e <= |s| && s[b..e] == c && Proper(c) && (e < |s| ==> s[e] == SEP)
    requires b == i || (b == i + 1 && s[i] == SEP)
    ensures SkipFrom(s, i) == b && EndFrom(s, b) == e && b < e
  {
    assert s[b] == c[0];
    assert SkipFrom(s, b) == b;
    EndIs(s, b, e);
  }

  /** Evaluating what was found gives it again. */
  lemma EvaluatedAgain(fs: FileSystem, input: string)
    requires input != "" && input[0] == SEP
    ensures var r := Walk(fs, [], input, 1, 0);
            r.Found? ==> Walk(fs, [], Render(r.at), 1, 0) == Found(r.at, "")
  {
    var r := Walk(fs, [], input, 1, 0);
    if r.Found? {
      WalkEnds(fs, [], input, 1, 0);
      WalkNormal(fs, [], input, 1, 0);
      assert r.at[..0] == [];
      WalkAlong(fs, r.at, 0);
    }
  }

  // The laws of walking: what one component at the front of a path does.

  lemma {:induction false} SkipShifts(s: string, start: nat, k: nat)
    requires start + k <= |s|
    ensures SkipFrom(s[start..], k) + start == SkipFrom(s, start + k)
    decreases |s| - start - k
  {
    if start + k < |s| {
      SkipShifts(s, start, k + 1);
    }
  }

  /** The next component, seen in the rest of the path. */
  lemma NextShifts(s: string, i: nat)
    requires i <= |s|
    ensures var u := s[i..];
            var b := SkipFrom(u, 0); var e := EndFrom(u, b);
            b + i == SkipFrom(s, i) && e + i == EndFrom(s, b + i) && u[b..e] == s[b + i..e + i] && u[b..] == s[b + i..] && u[e..] == s[e + i..]
  {
    SkipShifts(s, i, 0);
    EndShifts(s, i, SkipFrom(s[i..], 0));
  }

  /** What the component `c` does, with `tail` behind it. */
  datatype Move = Ends(outcome: Outcome) | On(at: seq<string>) | Jump(at: seq<string>, path: string, from: nat)

  ghost function MoveBy(fs: FileSystem, at: seq<string>, c: string, tail: string, links: nat): (m: Move)
    requires links <= MAX_LINKS
    ensures m.Jump? ==> m.from <= |m.path| && links < MAX_LINKS
    ensures m.On? ==> c != ""
  {
    if c == "" then Ends(Found(at, ""))
    else if c == "." then On(at)
    else if c == ".." then On(Up(at))
    else
      match fs(at + [c])
      case Missing => Ends(Found(at, c + tail))
      case Broken => Ends(Failed(LstatFailed))
      case Directory => On(at + [c])
      case OtherFile => Ends(if tail != "" then Failed(NotADirectory) else Found(at + [c], ""))
      case Link(t) =>
        if links == MAX_LINKS then Ends(Failed(TooManyLinks))
        else if t.Unreadable? then Ends(Failed(ReadlinkFailed))
        else if t.path != "" && t.path[0] == SEP then Jump([], t.path + tail, 1)
        else Jump(at, t.path + tail, 0)
  }

  /** The move `m` was made, and the walk goes on to `w`. */
  ghost predicate Moved(fs: FileSystem, w: Outcome, m: Move, s: string, end: nat, links: nat)
    requires end <= |s| && links <= MAX_LINKS && (m.Jump? ==> m.from <= |m.path| && links < MAX_LINKS)
  {
    match m
    case Ends(o) => w == o
    case On(at) => Continues(fs, w, at, s, end, links)
    case Jump(at, s', k) => Continues(fs, w, at, s', k, links + 1)
  }

  lemma WalkMoves(fs: FileSystem, w: Outcome, at: seq<string>, s: string, i: nat, links: nat)
    requires i <= |s| && links <= MAX_LINKS && Continues(fs, w, at, s, i, links)
    ensures var start := SkipFrom(s, i); var end := EndFrom(s, start);
            Moved(fs, w, MoveBy(fs, at, s[start..end], s[end..], links), s, end, links)
  {
    var start := SkipFrom(s, i);
    var end := EndFrom(s, start);
    WalkStep(fs, w, at, s, i, links);
    assert s[start..] == s[start..end] + s[end..];
  }

  lemma MovesBy(fs: FileSystem, w: Outcome, at: seq<string>, s: string, i: nat, b: nat, e: nat, c: string, tail: string, links: nat)
    requires i <= |s| && links <= MAX_LINKS && Continues(fs, w, at, s, i, links)
    requires b == SkipFrom(s, i) && e == EndFrom(s, b) && c == s[b..e] && tail == s[e..]
    ensures Moved(fs, w, MoveBy(fs, at, c, tail, links), s, e, links)
  {
    WalkMoves(fs, w, at, s, i, links);
  }

  /** A walk looks only at what is left of the path. */
  lemma {:induction false} OnlyRest(fs: FileSystem, w: Outcome, w': Outcome, at: seq<string>, s: string, i: nat, links: nat)
    requires i <= |s| && links <= MAX_LINKS
    requires Continues(fs, w, at, s, i, links) && Continues(fs, w', at, s[i..], 0, links)
    ensures w == w'
    decreases |s| - i, 0
  {
    var b, e, c, tail := NextOfBoth(s, i);
    MovesBy(fs, w, at, s, i, b + i, e + i, c, tail, links);
    MovesBy(fs, w', at, s[i..], 0, b, e, c, tail, links);
    BothMoved(fs, w, w', MoveBy(fs, at, c, tail, links), s, i, e, links);
  }

  /** The next component, seen in the path and in the rest of it. */
  lemma NextOfBoth(s: string, i: nat) returns (b: nat, e: nat, c: string, tail: string)
    requires i <= |s|
    ensures b <= e && i + e <= |s| && (c != "" ==> e > 0)
    ensures b == SkipFrom(s[i..], 0) && e == EndFrom(s[i..], b) && c == s[i..][b..e] && tail == s[i..][e..]
    ensures b + i == SkipFrom(s, i) && e + i == EndFrom(s, b + i) && c == s[b + i..e + i] && tail == s[e + i..]
  {
    NextShifts(s, i);
    b := SkipFrom(s[i..], 0);
    e := EndFrom(s[i..], b);
    c, tail := s[i..][b..e], s[i..][e..];
  }

  lemma {:induction false} BothMoved(fs: FileSystem, w: Outcome, w': Outcome, m: Move, s: string, i: nat, e: nat, links: nat)
    requires i + e <= |s| && links <= MAX_LINKS && (m.On? ==> e > 0) && (m.Jump? ==> m.from <= |m.path| && links < MAX_LINKS)
    requires Moved(fs, w, m, s, i + e, links) && Moved(fs, w', m, s[i..], e, links)
    ensures w == w'
    decreases |s| - i - (if m.On? then e else 0), if m.On? then 1 else -1
  {
    match m
    case Ends(_) =>
    case Jump(at, s', k) => SameWalk(fs, w, w', at, s', k, links + 1);
    case On(at) =>
      var x := Walk(fs, at, s[i + e..], 0, links);
      assert s[i..][e..] == s[i + e..];
      OnlyRest(fs, w, x, at, s, i + e, links);
      OnlyRest(fs, w', x, at, s[i..], e, links);
  }

  lemma SameWalk(fs: FileSystem, w: Outcome, w': Outcome, at: seq<string>, s: string, i: nat, links: nat)
    requires i <= |s| && links <= MAX_LINKS && Continues(fs, w, at, s, i, links) && Continues(fs, w', at, s, i, links)
    ensures w == w'
  {
    assert Walk(fs, at, s, i, links) == w;
  }

  /** What can follow a component. */
  predicate Tail(t: string) {
    t != "" ==> t[0] == SEP
  }

  /** The next component of a path that begins with `c`. */
  lemma FirstName(c: string, t: string)
    requires Proper(c) && Tail(t)
    ensures var s := c + t; SkipFrom(s, 0) == 0 && EndFrom(s, 0) == |c| && s[0..|c|] == c && s[|c|..] == t
  {
    var s := c + t;
    assert s[0] == c[0] && s[0..|c|] == c && s[|c|..] == t;
    EndIs(s, 0, |c|);
  }

  /** Walking on behind the first component. */
  lemma WalkFirst(fs: FileSystem, at: seq<string>, c: string, t: string, links: nat)
    requires Proper(c) && Tail(t) && links <= MAX_LINKS
    ensures match MoveBy(fs, at, c, t, links)
            case Ends(o) => Walk(fs, at, c + t, 0, links) == o
            case On(at') => Walk(fs, at, c + t, 0, links) == Walk(fs, at', t, 0, links)
            case Jump(at', s', k) => Walk(fs, at, c + t, 0, links) == Walk(fs, at', s', k, links + 1)
  {
    var s := c + t;
    var w := Walk(fs, at, s, 0, links);
    FirstName(c, t);
    WalkMoves(fs, w, at, s, 0, links);
    match MoveBy(fs, at, c, t, links)
    case Ends(_) =>
    case On(at') => OnlyRest(fs, w, Walk(fs, at', t, 0, links), at', s, |c|, links);
    case Jump(at', s', k) => SameWalk(fs, w, Walk(fs, at', s', k, links + 1), at', s', k, links + 1);
  }

  /** A ".." leads to the directory above, at the root it stays there, and a "." stays where it is. */
  lemma WalkDots(fs: FileSystem, at: seq<string>, c: string, t: string, links: nat)
    requires Tail(t) && links <= MAX_LINKS
    ensures Walk(fs, at + [c], ".." + t, 0, links) == Walk(fs, at, t, 0, links)
    ensures Walk(fs, [], ".." + t, 0, links) == Walk(fs, [], t, 0, links)
    ensures Walk(fs, at, "." + t, 0, links) == Walk(fs, at, t, 0, links)
  {
    WalkFirst(fs, at + [c], "..", t, links);
    assert (at + [c])[..|at|] == at;
    WalkFirst(fs, [], "..", t, links);
    WalkFirst(fs, at, ".", t, links);
  }

  /** A name that is no link leads into a directory or to an end. */
  lemma WalkName(fs: FileSystem, at: seq<string>, c: string, t: string, links: nat)
    requires Proper(c) && c != "." && c != ".." && Tail(t) && links <= MAX_LINKS && !fs(at + [c]).Link?
    ensures var w := Walk(fs, at, c + t, 0, links);
            match fs(at + [c])
            case Missing => w == Found(at, c + t)
            case Broken => w == Failed(LstatFailed)
            case Directory => w == Walk(fs, at + [c], t, 0, links)
            case OtherFile => w == if t == "" then Found(at + [c], "") else Failed(NotADirectory)
  {
    WalkFirst(fs, at, c, t, links);
  }

  /** The target of a link takes the place of its name, from the root or from the directory of the link. */
  lemma WalkLink(fs: FileSystem, at: seq<string>, c: string, t: string, links: nat, target: Target)
    requires Proper(c) && c != "." && c != ".." && Tail(t) && links <= MAX_LINKS && fs(at + [c]) == Link(target)
    ensures var w := Walk(fs, at, c + t, 0, links);
            if links == 255 then w == Failed(TooManyLinks)
            else if target.Unreadable? then w == Failed(ReadlinkFailed)
            else if target.path != "" && target.path[0] == SEP then w == Walk(fs, [], target.path + t, 0, links + 1)
            else w == Walk(fs, at, target.path + t, 0, links + 1)
  {
    WalkFirst(fs, at, c, t, links);
    if links < MAX_LINKS && target.Readable? && target.path != "" && target.path[0] == SEP {
      SepFirst(fs, [], target.path + t, links + 1);
    }
  }

  lemma SepFirst(fs: FileSystem, at: seq<string>, s: string, links: nat)
    requires s != "" && s[0] == SEP && links <= MAX_LINKS
    ensures Walk(fs, at, s, 0, links) == Walk(fs, at, s, 1, links) == Walk(fs, at, s[1..], 0, links)
  {
    var w := Walk(fs, at, s, 0, links);
    assert SkipFrom(s, 0) == SkipFrom(s, 1);
    assert w == Walk(fs, at, s, 1, links);
    OnlyRest(fs, w, Walk(fs, at, s[1..], 0, links), at, s, 1, links);
  }

  lemma RelativeLink(fs: FileSystem, at: seq<string>, c: string, t: string, links: nat, path: string)
    requires Proper(c) && c != "." && c != ".." && Tail(t) && links < MAX_LINKS && fs(at + [c]) == Link(Readable(path))
    requires path == "" || path[0] != SEP
    ensures Walk(fs, at, c + t, 0, links) == Walk(fs, at, path + t, 0, links + 1)
  {
    WalkLink(fs, at, c, t, links, Readable(path));
  }

  lemma UpAndOn(fs: FileSystem, at: seq<string>, d: string, l: string, t: string, links: nat)
    requires Tail(l) && Tail(t) && links <= MAX_LINKS
    ensures Walk(fs, at + [d], ".." + l + t, 0, links) == Walk(fs, at, l + t, 0, links)
  {
    assert ".." + l + t == ".." + (l + t);
    WalkDots(fs, at, d, l + t, links);
  }

  /** A link that begins with ".." goes on from the directory above the one it lies in. */
  lemma LinkUp(fs: FileSystem, at: seq<string>, d: string, c: string, l: string, t: string, links: nat)
    requires Proper(c) && c != "." && c != ".." && Tail(l) && Tail(t) && links < MAX_LINKS
    requires fs(at + [d] + [c]) == Link(Readable(".." + l))
    ensures Walk(fs, at + [d], c + t, 0, links) == Walk(fs, at, l + t, 0, links + 1)
  {
    RelativeLink(fs, at + [d], c, t, links, ".." + l);
    UpAndOn(fs, at, d, l, t, links + 1);
  }

  /** Every place on the way of the names `cs` is a directory. */
  ghost predicate Plain(fs: FileSystem, at: seq<string>, cs: seq<string>)
    decreases |cs|
  {
    DirectoryAt(fs, at) && (cs == [] || Plain(fs, Norm(at + [cs[0]]), cs[1..]))
  }

  predicate DirectoryAt(fs: FileSystem, at: seq<string>) {
    at == [] || fs(at).Directory?
  }

  lemma NormStep(at: seq<string>, c: string, cs: seq<string>)
    ensures Norm(Norm(at + [c]) + cs) == Norm(at + ([c] + cs)) && Norm(Norm(at + [c])) == Norm(at + [c])
  {
    var at' := Norm(at + [c]);
    NormWithoutDots(at + [c]);
    NormOfNormal(at');
    NormBehind(at', at + [c], cs);
    ConcatAssoc(at, [c], cs);
  }

  lemma PlainStep(fs: FileSystem, at: seq<string>, c: string, cs: seq<string>)
    requires Plain(fs, at, [c] + cs)
    ensures Plain(fs, Norm(at + [c]), cs) && DirectoryAt(fs, Norm(at + [c]))
  {
    assert ([c] + cs)[1..] == cs;
  }

  /** One component of a path without links on the way. */
  lemma PlainMove(fs: FileSystem, at: seq<string>, c: string, t: string, links: nat)
    requires Proper(c) && Tail(t) && links <= MAX_LINKS && DirectoryAt(fs, Norm(at + [c])) && Norm(at) == at
    ensures Walk(fs, at, c + t, 0, links) == Walk(fs, Norm(at + [c]), t, 0, links)
  {
    NormOneMore(at, c);
    if c == "." || c == ".." {
      assert at != [] ==> at == at[..|at| - 1] + [at[|at| - 1]];
      WalkDots(fs, if at == [] then [] else at[..|at| - 1], if at == [] then "" else at[|at| - 1], t, links);
      WalkDots(fs, at, "", t, links);
    } else {
      WalkName(fs, at, c, t, links);
    }
  }

  lemma PlainFirst(fs: FileSystem, at: seq<string>, c: string, t: string, links: nat)
    requires Proper(c) && Tail(t) && links <= MAX_LINKS && Norm(at) == at && Plain(fs, at, Comps(c + t))
    ensures var at' := Norm(at + [c]);
            Walk(fs, at, c + t, 0, links) == Walk(fs, at', t, 0, links) &&
            Norm(at') == at' && Plain(fs, at', Comps(t)) && Norm(at' + Comps(t)) == Norm(at + Comps(c + t))
  {
    CompsFirst(c, t);
    PlainStep(fs, at, c, Comps(t));
    NormStep(at, c, Comps(t));
    PlainMove(fs, at, c, t, links);
  }

  lemma CompsBehindSep(s: string)
    requires s != "" && s[0] == SEP
    ensures Comps(s) == Comps(s[1..])
  {
    assert s == "" + [SEP] + s[1..];
    CompsConcat("", s[1..]);
    CompsEmpty();
    assert [] + Comps(s[1..]) == Comps(s[1..]);
  }

  lemma NothingLeft(fs: FileSystem, at: seq<string>, links: nat)
    requires links <= MAX_LINKS && Norm(at) == at
    ensures Walk(fs, at, "", 0, links) == Found(Norm(at + Comps("")), "")
  {
    CompsEmpty();
    assert at + [] == at;
  }

  /** Where every place on the way is a directory, evaluating a path is cleaning it. */
  lemma {:induction false} WalkIsClean(fs: FileSystem, at: seq<string>, s: string, links: nat)
    requires links <= MAX_LINKS && Norm(at) == at && Plain(fs, at, Comps(s))
    ensures Walk(fs, at, s, 0, links) == Found(Norm(at + Comps(s)), "")
    decreases |s|
  {
    if s == "" {
      NothingLeft(fs, at, links);
    } else if s[0] == SEP {
      CompsBehindSep(s);
      SepFirst(fs, at, s, links);
      WalkIsClean(fs, at, s[1..], links);
    } else {
      var e := EndFrom(s, 0);
      var c, t := s[..e], s[e..];
      assert s == c + t;
      PlainFirst(fs, at, c, t, links);
      WalkIsClean(fs, Norm(at + [c]), t, links);
    }
  }

  lemma CompsFirst(c: string, t: string)
    requires Proper(c) && Tail(t)
    ensures Comps(c + t) == [c] + Comps(t)
  {
    CompsOne(c);
    CompsEmpty();
    if t == "" {
      assert c + t == c && [c] + [] == [c];
    } else {
      var u := t[1..];
      assert c + t == c + [SEP] + u && t == "" + [SEP] + u;
      CompsConcat(c, u);
      CompsConcat("", u);
      assert [] + Comps(u) == Comps(u);
    }
  }
}
