/**
  Listing a container page by page, and walking a mount's tree of containers. A
  node's content is the map of its leaf paths to their bytes; the listings its
  server gives are a parameter.
 */
module TreeWalk {
  import opened Bytes
  import opened Text
  import opened SyncPlan
  import opened Ownership

  type Files = map<string, Bytes>

  datatype Entry = Entry(name: string, dir: bool, size: Option<nat>)

  // ---- pages -----------------------------------------------------------------

  const PAGE: nat := 1000

  /** What the server answers: as many entries as it likes up to the request, but some while any are left. */
  function Served(entries: seq<Entry>, skip: nat, chunk: nat): (page: seq<Entry>)
    requires skip <= |entries|
  {
    var n := if chunk < 1 then 1 else if chunk > PAGE then PAGE else chunk;
    entries[skip..if skip + n < |entries| then skip + n else |entries|]
  }

  /** `list_dir_status`: whatever page sizes the server chooses, the listing comes back whole. */
  method ListAll(entries: seq<Entry>, chunks: nat -> nat) returns (all: seq<Entry>)
    ensures all == entries
  {
    var total := |entries|;
    var skip := 0;
    all := [];
    while true
      invariant skip <= |entries| && all == entries[..skip]
      decreases |entries| - skip
    {
      var page := Served(entries, skip, chunks(skip));
      var got := |page|;
      all := all + page;
      skip := skip + got;
      if got == 0 || skip >= total {
        break;
      }
    }
  }

  // ---- what a walk can see ---------------------------------------------------

  /** The length of the first segment. */
  function NameEnd(r: string): (n: nat)
    ensures n <= |r| && '/' !in r[..n] && (n < |r| ==> r[n] == '/')
  {
    if r == [] || r[0] == '/' then 0 else 1 + NameEnd(r[1..])
  }

  /** The first name of a path below a container, and whether more follows. */
  function Head(path: string, container: string): (h: (string, bool))
    requires container <= path
  {
    var r := path[|container|..];
    (r[..NameEnd(r)], NameEnd(r) < |r|)
  }

  predicate IsReserved(name: string) { ".rs2-" <= TrimEnd(name) }

  /** The walk of the container reaches the leaf. */
  predicate Visible(path: string, container: string, mount: string, all: seq<string>)
    decreases |path| - |container|
  {
    && container < path
    && var h := Head(path, container);
    && h.0 != "" && !IsReserved(h.0)
    && (h.1 ==>
      var sub := path[..|container| + |h.0| + 1];
      !OwnedByChild(sub, mount, all) && Visible(path, sub, mount, all))
  }

  lemma {:induction false} NameEndIs(n: string, rest: string)
    requires '/' !in n && (rest == "" || rest[0] == '/')
    ensures NameEnd(n + rest) == |n|
  {
    if n == "" {
      assert n + rest == rest;
    } else {
      assert (n + rest)[1..] == n[1..] + rest;
      NameEndIs(n[1..], rest);
    }
  }

  lemma HeadOfLeaf(container: string, n: string)
    requires '/' !in n
    ensures Head(container + n, container) == (n, false)
  {
    assert (container + n)[|container|..] == n + "";
    NameEndIs(n, "");
    assert n[..|n|] == n;
  }

  lemma HeadBelow(path: string, container: string, n: string)
    requires '/' !in n && container + n + "/" <= path
    ensures container <= path && Head(path, container) == (n, true)
    ensures path[..|container| + |n| + 1] == container + n + "/"
  {
    var sub := container + n + "/";
    var rest := path[|container| + |n|..];
    assert path[|container|..] == n + rest;
    NameEndIs(n, rest);
  }

  lemma HeadGives(path: string, container: string)
    requires container <= path
    ensures var h := Head(path, container);
      && '/' !in h.0
      && (h.1 ==> path[..|container| + |h.0| + 1] == container + h.0 + "/" && container + h.0 + "/" <= path)
      && (!h.1 ==> path == container + h.0)
  {
    var r := path[|container|..];
    var n := NameEnd(r);
    hide NameEnd;
    assert path == container + r;
    if n < |r| {
      assert r[..n + 1] == r[..n] + "/";
      assert path[..|container| + n + 1] == container + r[..n] + "/";
    } else {
      assert r[..n] == r;
    }
  }

  /** Every container between this one and the leaf can be listed. */
  predicate Open(path: string, container: string, status: string -> nat)
    decreases |path| - |container|
  {
    && container < path
    && var h := Head(path, container);
    h.1 ==> var sub := path[..|container| + |h.0| + 1]; status(sub) == 200 && Open(path, sub, status)
  }

  /** A mount, the mounts of its node, and the answers to the requests to list a container. */
  datatype View = View(mount: string, all: seq<string>, status: string -> nat)

  /** The walk does not pass the name over. */
  predicate Enters(name: string) { name != "" && !IsReserved(name) }

  /** The walk of a listed container reaches the leaf. */
  predicate Reached(path: string, container: string, w: View)
    decreases |path| - |container|
  {
    && container < path
    && var h := Head(path, container);
    && Enters(h.0)
    && (h.1 ==>
      var sub := path[..|container| + |h.0| + 1];
      !OwnedByChild(sub, w.mount, w.all) && w.status(sub) == 200 && Reached(path, sub, w))
  }

  /** Reached is visible, with every container on the way listed. */
  lemma {:induction false} ReachedIff(path: string, container: string, w: View)
    ensures Reached(path, container, w) <==>
      Visible(path, container, w.mount, w.all) && Open(path, container, w.status)
    decreases |path| - |container|
  {
    if container < path && Head(path, container).1 {
      ReachedIff(path, path[..|container| + |Head(path, container).0| + 1], w);
    }
  }

  // ---- honest listings -------------------------------------------------------

  /** What an entry stands for: its name without a trailing slash, and whether it is a container. */
  function Id(e: Entry): (string, bool) { (TrimEnd(e.name), e.dir) }

  /**
    A container's listing names every leaf and container that is there, once, and
    no others; sizes, where given, are right; `depth` bounds the tree.
   */
  ghost predicate Honest(entries: seq<Entry>, files: Files, c: string, depth: nat) {
    && (forall i, j :: 0 <= i < j < |entries| ==> Id(entries[i]) != Id(entries[j]))
    && (forall i :: 0 <= i < |entries| ==> Fair(entries[i], files, c, depth))
    && (forall p :: p in files && c < p ==> exists i :: 0 <= i < |entries| && Id(entries[i]) == Head(p, c))
  }

  ghost predicate Fair(e: Entry, files: Files, c: string, depth: nat) {
    && '/' !in Id(e).0
    && (e.dir ==> |c| + |Id(e).0| + 1 <= depth)
    && (!e.dir && Id(e).0 != "" ==>
      c + Id(e).0 in files && (e.size.Some? ==> e.size.value == |files[c + Id(e).0]|))
  }

  /** What a node answers when asked to list a container: the entries, if the status is 200. */
  datatype Server = Server(list: string -> seq<Entry>, status: string -> nat)

  /** Listings are honest where they are given, and what is said not to be there is empty. */
  ghost predicate HonestServer(server: Server, files: Files, depth: nat) {
    && (forall c :: server.status(c) == 200 ==> Honest(server.list(c), files, c, depth))
    && (forall c, p :: server.status(c) == 404 && p in files ==> !(c < p))
  }

  // ---- the walk --------------------------------------------------------------

  datatype Leaf = Leaf(path: string, size: Option<nat>)

  function Paths(leaves: seq<Leaf>): (s: set<string>) { set l | l in leaves :: l.path }

  predicate Distinct(leaves: seq<Leaf>) {
    forall i, j :: 0 <= i < j < |leaves| ==> leaves[i].path != leaves[j].path
  }

  predicate SizesRight(leaves: seq<Leaf>, files: Files) {
    forall i :: 0 <= i < |leaves| ==>
      leaves[i].path in files && (leaves[i].size.Some? ==> leaves[i].size.value == |files[leaves[i].path]|)
  }

  /** The leaves a walk found are those reached, each once, with sizes that are right. */
  ghost predicate Walked(leaves: seq<Leaf>, files: Files, c: string, w: View) {
    && Distinct(leaves) && SizesRight(leaves, files)
    && forall p :: p in Paths(leaves) <==> p in files && Reached(p, c, w)
  }

  /** What one entry adds to the walk of its container. */
  ghost predicate Adds(leaves: seq<Leaf>, e: Entry, files: Files, c: string, w: View) {
    && Distinct(leaves) && SizesRight(leaves, files)
    && forall p :: p in Paths(leaves) <==> p in files && Reached(p, c, w) && Head(p, c) == Id(e)
  }

  lemma ReachedLeaf(p: string, c: string, w: View, n: string)
    requires '/' !in n
    ensures Reached(p, c, w) && Head(p, c) == (n, false) <==> p == c + n && Enters(n)
  {
    HeadOfLeaf(c, n);
    if c <= p { HeadGives(p, c); }
  }

  lemma ReachedBelow(p: string, c: string, w: View, n: string)
    requires '/' !in n
    ensures Reached(p, c, w) && Head(p, c) == (n, true) <==>
      && Enters(n) && !OwnedByChild(c + n + "/", w.mount, w.all) && w.status(c + n + "/") == 200
      && Reached(p, c + n + "/", w)
  {
    hide Enters, OwnedByChild, TrimEnd;
    if c + n + "/" <= p { HeadBelow(p, c, n); }
    if c <= p { HeadGives(p, c); }
  }

  lemma AddsNothing(e: Entry, files: Files, c: string, w: View)
    requires '/' !in Id(e).0
    requires var sub := c + Id(e).0 + "/";
      !Enters(Id(e).0) || (e.dir && (OwnedByChild(sub, w.mount, w.all) || w.status(sub) != 200))
    ensures Adds([], e, files, c, w)
  {
    var n := Id(e).0;
    forall p ensures !(Reached(p, c, w) && Head(p, c) == Id(e)) {
      ReachedLeaf(p, c, w, n);
      ReachedBelow(p, c, w, n);
    }
  }

  lemma AddsLeaf(e: Entry, files: Files, c: string, w: View, depth: nat)
    requires Fair(e, files, c, depth) && !e.dir && Enters(Id(e).0)
    ensures Adds([Leaf(c + Id(e).0, e.size)], e, files, c, w)
  {
    var leaf := Leaf(c + Id(e).0, e.size);
    assert leaf in [leaf] && Paths([leaf]) == {leaf.path};
    forall p ensures Reached(p, c, w) && Head(p, c) == Id(e) <==> p == leaf.path {
      ReachedLeaf(p, c, w, Id(e).0);
    }
  }

  lemma AddsBelow(e: Entry, files: Files, c: string, w: View, below: seq<Leaf>)
    requires '/' !in Id(e).0 && e.dir && Enters(Id(e).0) && w.status(c + Id(e).0 + "/") == 200
    requires !OwnedByChild(c + Id(e).0 + "/", w.mount, w.all) && Walked(below, files, c + Id(e).0 + "/", w)
    ensures Adds(below, e, files, c, w)
  {
    forall p ensures Reached(p, c, w) && Head(p, c) == Id(e) <==> Reached(p, c + Id(e).0 + "/", w) {
      ReachedBelow(p, c, w, Id(e).0);
    }
  }

  // The entries are taken in the order of a stable sort: a schema first, then leaves, then containers.

  function Rank(e: Entry): (r: nat)
  {
    (if e.name == ".schema.json" then 0 else 2) + if e.dir then 1 else 0
  }

  /** The entry comes before position `i` of pass `rank`. */
  predicate Before(e: Entry, j: nat, rank: nat, i: nat) {
    Rank(e) < rank || (Rank(e) == rank && j < i)
  }

  ghost predicate Seen(entries: seq<Entry>, rank: nat, i: nat, h: (string, bool)) {
    exists j :: 0 <= j < |entries| && Before(entries[j], j, rank, i) && Id(entries[j]) == h
  }

  /** The walk so far: what the entries already taken add. */
  ghost predicate Partly(leaves: seq<Leaf>, entries: seq<Entry>, rank: nat, i: nat,
    files: Files, c: string, w: View)
  {
    && Distinct(leaves) && SizesRight(leaves, files)
    && forall p :: p in Paths(leaves) <==>
      p in files && Reached(p, c, w) && Seen(entries, rank, i, Head(p, c))
  }

  lemma PathsAppend(a: seq<Leaf>, b: seq<Leaf>)
    ensures Paths(a + b) == Paths(a) + Paths(b)
  {
    forall p | p in Paths(a) ensures p in Paths(a + b) {
      var l :| l in a && l.path == p;
      assert l in a + b;
    }
    forall p | p in Paths(b) ensures p in Paths(a + b) {
      var l :| l in b && l.path == p;
      assert l in a + b;
    }
  }

  lemma Joined(a: seq<Leaf>, b: seq<Leaf>, files: Files)
    requires Distinct(a) && SizesRight(a, files) && Distinct(b) && SizesRight(b, files) && Paths(a) !! Paths(b)
    ensures Distinct(a + b) && SizesRight(a + b, files)
  {
    var s := a + b;
    forall i, j | 0 <= i < j < |s| ensures s[i].path != s[j].path {
      if i < |a| <= j {
        assert a[i] in a && a[i].path in Paths(a);
        assert b[j - |a|] in b && b[j - |a|].path in Paths(b);
      }
    }
  }

  lemma SeenStep(entries: seq<Entry>, rank: nat, i: nat, h: (string, bool))
    requires i < |entries|
    ensures Seen(entries, rank, i + 1, h) <==>
      Seen(entries, rank, i, h) || (Rank(entries[i]) == rank && Id(entries[i]) == h)
  {
    hide Rank, Id;
    if Seen(entries, rank, i, h) {
      var j :| 0 <= j < |entries| && Before(entries[j], j, rank, i) && Id(entries[j]) == h;
      assert Before(entries[j], j, rank, i + 1);
    }
    if Rank(entries[i]) == rank { assert Before(entries[i], i, rank, i + 1); }
    if Seen(entries, rank, i + 1, h) {
      var j :| 0 <= j < |entries| && Before(entries[j], j, rank, i + 1) && Id(entries[j]) == h;
      assert j != i ==> Before(entries[j], j, rank, i);
      assert j == i && Rank(entries[i]) != rank ==> Before(entries[j], j, rank, i);
    }
  }

  lemma NotSeenTwice(entries: seq<Entry>, rank: nat, i: nat)
    requires i < |entries| && Rank(entries[i]) == rank
    requires forall a, b :: 0 <= a < b < |entries| ==> Id(entries[a]) != Id(entries[b])
    ensures !Seen(entries, rank, i, Id(entries[i]))
  {
  }

  lemma PartlyStep(leaves: seq<Leaf>, more: seq<Leaf>, entries: seq<Entry>, rank: nat, i: nat,
    files: Files, c: string, w: View)
    requires i < |entries| && Partly(leaves, entries, rank, i, files, c, w)
    requires forall a, b :: 0 <= a < b < |entries| ==> Id(entries[a]) != Id(entries[b])
    requires if Rank(entries[i]) == rank then Adds(more, entries[i], files, c, w) else more == []
    ensures Partly(leaves + more, entries, rank, i + 1, files, c, w)
  {
    PathsAppend(leaves, more);
    if Rank(entries[i]) == rank {
      NotSeenTwice(entries, rank, i);
      hide Seen, Reached, Head, Id, Distinct, SizesRight, Paths;
      assert Paths(leaves) !! Paths(more);
      Joined(leaves, more, files);
    } else {
      assert leaves + more == leaves && Paths(more) == {};
    }
    hide Seen, Reached, Head, Id, Distinct, SizesRight, Paths;
    forall p ensures p in Paths(leaves + more) <==>
      p in files && Reached(p, c, w) && Seen(entries, rank, i + 1, Head(p, c))
    {
      if Reached(p, c, w) { SeenStep(entries, rank, i, ReachedHead(p, c, w)); }
    }
  }

  function ReachedHead(p: string, c: string, w: View): (h: (string, bool))
    requires Reached(p, c, w)
    ensures c <= p && h == Head(p, c)
  {
    Head(p, c)
  }

  lemma PartlyStarts(entries: seq<Entry>, files: Files, c: string, w: View)
    ensures Partly([], entries, 0, 0, files, c, w)
  {
    assert Paths([]) == {};
  }

  lemma NextPass(entries: seq<Entry>, rank: nat, h: (string, bool))
    ensures Seen(entries, rank, |entries|, h) <==> Seen(entries, rank + 1, 0, h)
  {
    hide Rank, Id;
    if Seen(entries, rank, |entries|, h) {
      var j :| 0 <= j < |entries| && Before(entries[j], j, rank, |entries|) && Id(entries[j]) == h;
      assert Before(entries[j], j, rank + 1, 0);
    }
    if Seen(entries, rank + 1, 0, h) {
      var j :| 0 <= j < |entries| && Before(entries[j], j, rank + 1, 0) && Id(entries[j]) == h;
      assert Before(entries[j], j, rank, |entries|);
    }
  }

  lemma PartlyPass(leaves: seq<Leaf>, entries: seq<Entry>, rank: nat,
    files: Files, c: string, w: View)
    requires Partly(leaves, entries, rank, |entries|, files, c, w)
    ensures Partly(leaves, entries, rank + 1, 0, files, c, w)
  {
    hide Seen, Reached, Head;
    forall p | Reached(p, c, w) ensures
      Seen(entries, rank, |entries|, ReachedHead(p, c, w))
      <==> Seen(entries, rank + 1, 0, ReachedHead(p, c, w))
    {
      NextPass(entries, rank, ReachedHead(p, c, w));
    }
  }

  lemma PartlyEnds(leaves: seq<Leaf>, entries: seq<Entry>,
    files: Files, c: string, w: View, depth: nat)
    requires Partly(leaves, entries, 4, 0, files, c, w) && Honest(entries, files, c, depth)
    ensures Walked(leaves, files, c, w)
  {
    forall p | p in files && Reached(p, c, w) ensures Seen(entries, 4, 0, ReachedHead(p, c, w)) {
      assert c < p;
      var i :| 0 <= i < |entries| && Id(entries[i]) == Head(p, c);
      assert Before(entries[i], i, 4, 0);
    }
  }

  // ---- the containers seen ---------------------------------------------------

  /** The walk notes the container of this name. */
  predicate Notes(c: string, n: string, w: View) { Enters(n) && !OwnedByChild(c + n + "/", w.mount, w.all) }

  /** The path of a container: a name and one slash. */
  predicate IsDir(d: string) { |d| >= 2 && d[|d| - 1] == '/' && d[|d| - 2] != '/' }

  /** Of the containers directly below, those noted are the ones among the entries taken. */
  ghost predicate Noted(dirs: set<string>, entries: seq<Entry>, rank: nat, i: nat, c: string, w: View) {
    && (forall d :: d in dirs ==> c < d && IsDir(d))
    && forall n :: '/' !in n ==> (c + n + "/" in dirs <==> Notes(c, n, w) && Seen(entries, rank, i, (n, true)))
  }

  /** The container is listed directly below. */
  ghost predicate Child(entries: seq<Entry>, c: string, n: string, w: View) {
    '/' !in n && Notes(c, n, w) && exists j :: 0 <= j < |entries| && Id(entries[j]) == (n, true)
  }

  /** The containers a walk saw directly below its own are those its listing names. */
  ghost predicate Children(dirs: set<string>, entries: seq<Entry>, c: string, w: View) {
    && (forall d :: d in dirs ==> c < d && IsDir(d))
    && forall n :: '/' !in n ==> (c + n + "/" in dirs <==> Child(entries, c, n, w))
  }

  lemma SubApart(c: string, n: string, m: string, d: string)
    requires '/' !in n && '/' !in m && c + n + "/" < d
    ensures d != c + m + "/"
  {
    assert d[|c| + |n|] == (c + n + "/")[|c| + |n|] == '/';
    assert |n| < |m| ==> (c + m + "/")[|c| + |n|] == m[|n|];
  }

  lemma SameChild(c: string, n: string, m: string)
    requires c + n + "/" == c + m + "/"
    ensures n == m
  {
    assert (c + n + "/")[|c|..|c| + |n|] == n && (c + m + "/")[|c|..|c| + |m|] == m;
  }

  /** The container itself and containers below it. */
  predicate ContainersOf(dirs: set<string>, sub: string) {
    sub in dirs && forall d :: d in dirs ==> IsDir(d) && (d == sub || sub < d)
  }

  /** One more entry, and the containers seen below it. */
  lemma NotedStep(dirs: set<string>, more: set<string>, entries: seq<Entry>, rank: nat, i: nat, c: string, w: View)
    requires i < |entries| && Noted(dirs, entries, rank, i, c, w) && '/' !in Id(entries[i]).0
    requires var e := entries[i];
      if Rank(e) == rank && e.dir && Notes(c, Id(e).0, w)
      then ContainersOf(more, c + Id(e).0 + "/") else more == {}
    ensures Noted(dirs + more, entries, rank, i + 1, c, w)
  {
    var e := entries[i];
    hide Seen, Notes, Rank;
    forall n | '/' !in n
      ensures c + n + "/" in dirs + more <==> Notes(c, n, w) && Seen(entries, rank, i + 1, (n, true))
    {
      SeenStep(entries, rank, i, (n, true));
      if c + n + "/" in more {
        if c + n + "/" == c + Id(e).0 + "/" {
          SameChild(c, n, Id(e).0);
        } else {
          SubApart(c, Id(e).0, n, c + n + "/");
        }
      }
    }
  }

  lemma NotedPass(dirs: set<string>, entries: seq<Entry>, rank: nat, c: string, w: View)
    requires Noted(dirs, entries, rank, |entries|, c, w)
    ensures Noted(dirs, entries, rank + 1, 0, c, w)
  {
    hide Seen, Notes;
    forall n | '/' !in n ensures Seen(entries, rank, |entries|, (n, true)) <==> Seen(entries, rank + 1, 0, (n, true)) {
      NextPass(entries, rank, (n, true));
    }
  }

  lemma NotedStarts(entries: seq<Entry>, c: string, w: View)
    ensures Noted({}, entries, 0, 0, c, w)
  {
  }

  lemma NotedEnds(dirs: set<string>, entries: seq<Entry>, c: string, w: View)
    requires Noted(dirs, entries, 4, 0, c, w)
    ensures Children(dirs, entries, c, w)
  {
    hide Notes, Id;
    forall n | '/' !in n
      ensures Seen(entries, 4, 0, (n, true)) <==> exists j :: 0 <= j < |entries| && Id(entries[j]) == (n, true)
    {
      forall j | 0 <= j < |entries| ensures Before(entries[j], j, 4, 0) {
      }
    }
  }

  // ---- the walk itself -------------------------------------------------------

  /**
    `walk_entries`: whatever page sizes the server chooses, the leaves found are
    exactly those reached, each once. Containers of nested mounts are not entered
    and those that cannot be listed are skipped.
   */
  method WalkEntries(server: Server, chunks: string -> nat -> nat, container: string, mount: string, all: seq<string>,
    entries: seq<Entry>, ghost files: Files, ghost depth: nat) returns (leaves: seq<Leaf>, dirs: set<string>)
    requires HonestServer(server, files, depth) && server.status(container) == 200 && entries == server.list(container)
    ensures Walked(leaves, files, container, View(mount, all, server.status))
    ensures Children(dirs, entries, container, View(mount, all, server.status))
    decreases depth - |container|
  {
    hide Reached, Honest, OwnedByChild, IsReserved, Partly, Walked, Adds, Paths, Noted, Children;
    ghost var w := View(mount, all, server.status);
    assert Honest(entries, files, container, depth);
    HonestGives(entries, files, container, depth);
    leaves, dirs := [], {};
    PartlyStarts(entries, files, container, w);
    NotedStarts(entries, container, w);
    var rank := 0;
    while rank < 4
      invariant rank <= 4 && Partly(leaves, entries, rank, 0, files, container, w)
      invariant Noted(dirs, entries, rank, 0, container, w)
    {
      var i := 0;
      while i < |entries|
        invariant 0 <= i <= |entries| && Partly(leaves, entries, rank, i, files, container, w)
        invariant Noted(dirs, entries, rank, i, container, w)
      {
        var e := entries[i];
        assert Fair(e, files, container, depth);
        var more, below := [], {};
        if Rank(e) == rank {
          more, below := WalkEntry(server, chunks, container, mount, all, e, files, depth);
        }
        PartlyStep(leaves, more, entries, rank, i, files, container, w);
        NotedStep(dirs, below, entries, rank, i, container, w);
        leaves, dirs := leaves + more, dirs + below;
        i := i + 1;
      }
      PartlyPass(leaves, entries, rank, files, container, w);
      NotedPass(dirs, entries, rank, container, w);
      rank := rank + 1;
    }
    PartlyEnds(leaves, entries, files, container, w, depth);
    NotedEnds(dirs, entries, container, w);
  }

  /** One entry of the loop. */
  method WalkEntry(server: Server, chunks: string -> nat -> nat, container: string, mount: string, all: seq<string>,
    e: Entry, ghost files: Files, ghost depth: nat) returns (leaves: seq<Leaf>, dirs: set<string>)
    requires HonestServer(server, files, depth) && Fair(e, files, container, depth)
    ensures Adds(leaves, e, files, container, View(mount, all, server.status))
    ensures if e.dir && Notes(container, Id(e).0, View(mount, all, server.status))
      then ContainersOf(dirs, container + Id(e).0 + "/") else dirs == {}
    decreases depth - |container|, 0
  {
    hide Reached, Honest, OwnedByChild, IsReserved, Walked, Adds, Paths;
    ghost var w := View(mount, all, server.status);
    leaves, dirs := [], {};
    var name := TrimEnd(e.name);
    if name == "" || IsReserved(name) {
      AddsNothing(e, files, container, w);
    } else if e.dir {
      var sub := container + name + "/";
      var owned := IsOwnedByChild(sub, mount, all);
      if owned {
        AddsNothing(e, files, container, w);
      } else if server.status(sub) != 200 {
        dirs := {sub};
        AddsNothing(e, files, container, w);
      } else {
        var entries := ListAll(server.list(sub), chunks(sub));
        leaves, dirs := WalkEntries(server, chunks, sub, mount, all, entries, files, depth);
        AddsBelow(e, files, container, w, leaves);
        dirs := dirs + {sub};
      }
    } else {
      leaves := [Leaf(container + name, e.size)];
      AddsLeaf(e, files, container, w, depth);
    }
  }

  /** `walk`: the leaves and containers below a root, or the status that refused its listing. */
  method Walk(server: Server, chunks: string -> nat -> nat, root: string, mount: string, all: seq<string>,
    ghost files: Files, ghost depth: nat) returns (refused: Option<nat>, leaves: seq<Leaf>, dirs: set<string>)
    requires HonestServer(server, files, depth)
    ensures refused == if server.status(root) == 200 then None else Some(server.status(root))
    ensures refused.None? ==>
      && Walked(leaves, files, root, View(mount, all, server.status))
      && Children(dirs, server.list(root), root, View(mount, all, server.status))
    ensures refused.Some? ==> leaves == [] && dirs == {}
  {
    refused, leaves, dirs := None, [], {};
    if server.status(root) != 200 {
      refused := Some(server.status(root));
    } else {
      var entries := ListAll(server.list(root), chunks(root));
      leaves, dirs := WalkEntries(server, chunks, root, mount, all, entries, files, depth);
    }
  }

  lemma HonestGives(entries: seq<Entry>, files: Files, c: string, depth: nat)
    requires Honest(entries, files, c, depth)
    ensures forall i, j :: 0 <= i < j < |entries| ==> Id(entries[i]) != Id(entries[j])
    ensures forall i :: 0 <= i < |entries| ==> Fair(entries[i], files, c, depth)
  {
  }
}
