/** Bringing one tree on the target in line with the source. */
module TreeSync {
  import opened Bytes
  import opened Text
  import opened SyncPlan
  import opened Ownership
  import opened TreeWalk

  // ---- deciding one leaf -----------------------------------------------------

  datatype Action = Create | Update | Skip

  /** `decide`: from the target's listing entry and, when that cannot tell, its bytes. */
  function Decide(src: Bytes, entry: Option<Option<nat>>, body: Option<Bytes>): (a: Action)
  {
    if entry.None? then Create
    else if entry.value.Some? && entry.value.value != |src| then Update
    else if body.None? then Create
    else if body.value == src then Skip
    else Update
  }

  datatype Sort = Specs | Opaque | Datasets

  /**
    How a sort of tree is compared and stored: `canon` gives the bytes two sides
    are compared on, `stored` what the server keeps of a body. Sizes are trusted
    for opaque files only, where both are the identity.
   */
  datatype Kind = Kind(canon: Bytes -> Bytes, stored: Bytes -> Bytes, sort: Sort)

  /** Re-serialising keeps the canonical form, and files are kept as they are. */
  ghost predicate Faithful(k: Kind) {
    && (forall b :: k.canon(k.stored(b)) == k.canon(b))
    && (k.sort == Opaque ==> forall b :: k.canon(b) == b)
  }

  // ---- one run ---------------------------------------------------------------

  /** What both walks are of. */
  datatype Tree = Tree(root: string, mount: string, all: seq<string>)

  /** What a side holds, how it answers requests to list it, and which leaves it serves when asked for them. */
  datatype Node = Node(files: Files, server: Server, serves: string -> bool)

  datatype Run = Run(k: Kind, t: Tree, prune: bool, src: Node, tgt: Node)

  function ViewOf(t: Tree, server: Server): View { View(t.mount, t.all, server.status) }

  /** The side's walk finds the leaf, if it is there. */
  predicate Sees(t: Tree, server: Server, p: string) {
    server.status(t.root) == 200 && Reached(p, t.root, ViewOf(t, server))
  }

  /** The source has the leaf and its walk finds it. */
  predicate Offered(r: Run, p: string) { p in r.src.files && Sees(r.t, r.src.server, p) }

  /** The target has the leaf and its walk finds it. */
  predicate Held(r: Run, p: string) { p in r.tgt.files && Sees(r.t, r.tgt.server, p) }

  /** The target is seen to hold the leaf, and serves it with content that compares equal. */
  predicate Same(r: Run, p: string)
    requires Offered(r, p)
  {
    Held(r, p) && r.tgt.serves(p) && r.k.canon(r.tgt.files[p]) == r.k.canon(r.src.files[p])
  }

  /** The listed size alone shows that a file differs. */
  predicate SizeTells(r: Run, index: map<string, Option<nat>>, p: string)
    requires Offered(r, p)
  {
    r.k.sort == Opaque && p in index && index[p].Some? && index[p].value != |r.src.files[p]|
  }

  /** The right decision on a leaf the source offers; one listed but not served counts as missing. */
  function Verdict(r: Run, index: map<string, Option<nat>>, p: string): (a: Action)
    requires Offered(r, p)
  {
    if Same(r, p) then Skip
    else if Held(r, p) && (r.tgt.serves(p) || SizeTells(r, index, p)) then Update
    else Create
  }

  predicate IsSchema(p: string) { |p| >= 13 && p[|p| - 13..] == "/.schema.json" }

  /** A container directly below the root that the side's walk notes. */
  ghost predicate Dataset(t: Tree, server: Server, d: string) {
    server.status(t.root) == 200 &&
    exists n :: d == t.root + n + "/" && Child(server.list(t.root), t.root, n, ViewOf(t, server))
  }

  /** A dataset that only the target has goes as a whole. */
  ghost predicate Dropped(r: Run, d: string) {
    && r.prune && r.k.sort == Datasets && Dataset(r.t, r.tgt.server, d) && !Dataset(r.t, r.src.server, d)
  }

  ghost predicate Swept(r: Run, p: string) { exists d :: Dropped(r, d) && d <= p }

  /** What a run leaves at a path. */
  ghost function Outcome(r: Run, p: string): (o: Option<Bytes>)
  {
    if Offered(r, p) then Some(if Same(r, p) then r.tgt.files[p] else r.k.stored(r.src.files[p]))
    else if p !in r.tgt.files then None
    else if Swept(r, p) then (if OwnedByChild(p, r.t.mount, r.t.all) then Some(r.tgt.files[p]) else None)
    else if r.prune && Held(r, p) && !IsSchema(p) then None
    else Some(r.tgt.files[p])
  }

  ghost predicate Holds(files: Files, p: string, o: Option<Bytes>) {
    if o.None? then p !in files else p in files && files[p] == o.value
  }

  function Was(r: Run, p: string): (o: Option<Bytes>)
  {
    if p in r.tgt.files then Some(r.tgt.files[p]) else None
  }

  /** Part of the way: the paths done are as the run leaves them, all others as they were. */
  ghost predicate Stage(r: Run, done: set<string>, now: Files) {
    forall p :: Holds(now, p, if p in done then Outcome(r, p) else Was(r, p))
  }

  ghost predicate Result(r: Run, now: Files) { forall p :: Holds(now, p, Outcome(r, p)) }

  /** Nothing needs doing. */
  ghost predicate Converged(r: Run) {
    && (forall p :: Offered(r, p) ==> Same(r, p))
    && (forall d :: !Dropped(r, d))
    && (r.prune ==> forall p :: Held(r, p) && !Offered(r, p) ==> IsSchema(p))
  }

  // ---- the index -------------------------------------------------------------

  /** What the listing said of a leaf, trusting sizes for files only. */
  function Listed(k: Kind, index: map<string, Option<nat>>, p: string): (e: Option<Option<nat>>)
  {
    if p !in index then None else if k.sort == Opaque then Some(index[p]) else Some(None)
  }

  /** What the target answers when asked for the leaf: nothing unless the status is 200. */
  function BodyOf(r: Run, now: Files, p: string): (b: Option<Bytes>)
  {
    if p in now && r.tgt.serves(p) then Some(r.k.canon(now[p])) else None
  }

  /** The index says of the leaf whether the target is seen to hold it and, if it gives a size, the right one. */
  predicate IndexRight(r: Run, index: map<string, Option<nat>>, p: string) {
    && (p in index <==> Held(r, p))
    && (p in index && index[p].Some? ==> index[p].value == |r.tgt.files[p]|)
  }

  /** The shortcut over sizes never changes the decision. */
  lemma DecidesRightly(r: Run, index: map<string, Option<nat>>, p: string)
    requires Faithful(r.k) && Offered(r, p) && IndexRight(r, index, p)
    ensures Decide(r.k.canon(r.src.files[p]), Listed(r.k, index, p), BodyOf(r, r.tgt.files, p)) == Verdict(r, index, p)
  {
    hide Sees;
    if r.k.sort == Opaque {
      assert r.k.canon(r.src.files[p]) == r.src.files[p];
      assert p in r.tgt.files ==> r.k.canon(r.tgt.files[p]) == r.tgt.files[p];
    }
  }

  /** The leaves of the index, with their sizes. */
  function IndexOf(leaves: seq<Leaf>): (index: map<string, Option<nat>>)
  {
    if leaves == [] then map[] else IndexOf(leaves[..|leaves| - 1])[leaves[|leaves| - 1].path := leaves[|leaves| - 1].size]
  }

  lemma PathsOfLast(leaves: seq<Leaf>)
    requires leaves != []
    ensures Paths(leaves) == Paths(leaves[..|leaves| - 1]) + {leaves[|leaves| - 1].path}
  {
    var front, last := leaves[..|leaves| - 1], leaves[|leaves| - 1];
    assert leaves == front + [last];
    PathsAppend(front, [last]);
    assert last in [last];
    assert Paths([last]) == {last.path};
  }

  lemma {:induction false} IndexIsRight(leaves: seq<Leaf>, tgt: Files, p: string)
    requires SizesRight(leaves, tgt)
    ensures p in IndexOf(leaves) <==> p in Paths(leaves)
    ensures p in IndexOf(leaves) ==> p in tgt
    ensures p in IndexOf(leaves) && IndexOf(leaves)[p].Some? ==> IndexOf(leaves)[p].value == |tgt[p]|
  {
    if leaves != [] {
      PathsOfLast(leaves);
      IndexIsRight(leaves[..|leaves| - 1], tgt, p);
    } else {
      assert Paths(leaves) == {};
    }
  }

  // ---- the leaves of a side --------------------------------------------------

  /** The leaves the side's walk finds, each once, with right sizes. */
  ghost predicate LeavesOf(leaves: seq<Leaf>, t: Tree, n: Node) {
    && Distinct(leaves) && SizesRight(leaves, n.files)
    && forall p :: p in Paths(leaves) <==> p in n.files && Sees(t, n.server, p)
  }

  lemma LeafIn(leaves: seq<Leaf>, i: nat)
    requires i < |leaves|
    ensures leaves[i].path in Paths(leaves)
  {
    assert leaves[i] in leaves;
  }

  lemma FreshLeaf(leaves: seq<Leaf>, i: nat)
    requires Distinct(leaves) && i < |leaves|
    ensures leaves[i].path !in Paths(leaves[..i])
    ensures Paths(leaves[..i + 1]) == Paths(leaves[..i]) + {leaves[i].path}
  {
    PathsOfLast(leaves[..i + 1]);
    assert leaves[..i + 1][..i] == leaves[..i];
  }

  // ---- the transfer ----------------------------------------------------------

  lemma StageSends(r: Run, done: set<string>, now: Files, p: string)
    requires Stage(r, done, now) && p !in done && Offered(r, p)
    ensures BodyOf(r, now, p) == BodyOf(r, r.tgt.files, p)
    ensures Same(r, p) ==> Stage(r, done + {p}, now)
    ensures !Same(r, p) ==> Stage(r, done + {p}, now[p := r.k.stored(r.src.files[p])])
  {
    hide Offered, Swept, Held;
    assert Holds(now, p, Was(r, p));
    assert Same(r, p) ==> Held(r, p) && p in r.tgt.files by { SameIsHeld(r, p); }
    hide Same;
  }

  lemma SameIsHeld(r: Run, p: string)
    requires Offered(r, p)
    ensures Same(r, p) ==> Held(r, p) && p in r.tgt.files
  {
  }

  /**
    The transfer loop: every leaf found on the source is created, updated or
    skipped, until a request fails. `readable`, `reachable` and `writable` say
    which reads of the source, and reads and writes of the target, go through.
   */
  method Transfer(r: Run, leaves: seq<Leaf>, index: map<string, Option<nat>>, dry: bool,
    readable: string -> bool, reachable: string -> bool, writable: string -> bool)
    returns (now: Files, changes: nat, ok: bool, ghost done: set<string>)
    requires Faithful(r.k) && Distinct(leaves)
    requires forall i :: 0 <= i < |leaves| ==> Offered(r, leaves[i].path) && IndexRight(r, index, leaves[i].path)
    ensures if dry then now == r.tgt.files else Stage(r, done, now)
    ensures done <= Paths(leaves) && (ok ==> done == Paths(leaves))
    ensures ok ==> (changes == 0 <==> forall i :: 0 <= i < |leaves| ==> Same(r, leaves[i].path))
    ensures (forall p :: readable(p) && reachable(p) && writable(p)) ==> ok
  {
    hide Stage, Distinct, Faithful, Same, Held, Offered, Decide, Listed, BodyOf, IndexRight, Paths, SizeTells;
    now, changes, ok := r.tgt.files, 0, true;
    var i := 0;
    done := {};
    NothingDone(r, leaves);
    while i < |leaves|
      invariant 0 <= i <= |leaves| && ok
      invariant done == Paths(leaves[..i]) && done <= Paths(leaves)
      invariant if dry then now == r.tgt.files else Stage(r, done, now)
      invariant changes == 0 <==> forall j :: 0 <= j < i ==> Same(r, leaves[j].path)
    {
      var p := leaves[i].path;
      FreshLeaf(leaves, i);
      LeafIn(leaves, i);
      if !readable(p) {
        ok := false;
        return;
      }
      if !dry { StageSends(r, done, now, p); }
      assert p in r.src.files by { OfferedIs(r, p); }
      if p in index && !SizeTells(r, index, p) && !reachable(p) {
        ok := false;
        return;
      }
      var action := Decide(r.k.canon(r.src.files[p]), Listed(r.k, index, p), BodyOf(r, now, p));
      DecidesRightly(r, index, p);
      if action != Skip {
        if !dry {
          if !writable(p) {
            ok := false;
            return;
          }
          now := now[p := r.k.stored(r.src.files[p])];
        }
        changes := changes + 1;
      }
      done := done + {p};
      i := i + 1;
    }
    assert leaves[..i] == leaves;
  }

  lemma OfferedIs(r: Run, p: string)
    requires Offered(r, p)
    ensures p in r.src.files
  {
  }

  lemma NothingDone(r: Run, leaves: seq<Leaf>)
    ensures Stage(r, {}, r.tgt.files) && Paths(leaves[..0]) == {}
  {
  }

  // ---- whole datasets --------------------------------------------------------

  /** The path, past the root and without slashes at its end, is a single name. */
  predicate IsDataset(d: string, root: string) { root <= d && '/' !in TrimEnd(d[|root|..]) }

  ghost predicate DirsOf(dirs: set<string>, t: Tree, n: Node) {
    if n.server.status(t.root) == 200 then Children(dirs, n.server.list(t.root), t.root, ViewOf(t, n.server)) else dirs == {}
  }

  lemma DatasetName(root: string, n: string)
    requires n != "" && '/' !in n
    ensures IsDataset(root + n + "/", root)
  {
    var u := (root + n + "/")[|root|..];
    assert u == n + "/" && u[..|u| - 1] == n;
    assert n[|n| - 1] != '/';
  }

  lemma DatasetIs(d: string, root: string) returns (n: string)
    requires root < d && IsDir(d) && IsDataset(d, root)
    ensures '/' !in n && d == root + n + "/"
  {
    var u := d[|root|..];
    n := u[..|u| - 1];
    assert d == root + u && u == n + "/";
    if n != "" {
      assert n[|n| - 1] == d[|d| - 2];
      assert TrimEnd(u) == n;
    }
  }

  lemma DirsAre(dirs: set<string>, t: Tree, n: Node, d: string)
    requires DirsOf(dirs, t, n)
    ensures d in dirs && IsDataset(d, t.root) <==> Dataset(t, n.server, d)
  {
    hide OwnedByChild, IsReserved;
    if Dataset(t, n.server, d) {
      var m :| d == t.root + m + "/" && Child(n.server.list(t.root), t.root, m, ViewOf(t, n.server));
      DatasetName(t.root, m);
    }
    if d in dirs && IsDataset(d, t.root) {
      var m := DatasetIs(d, t.root);
    }
  }

  /** The source offers nothing below a dataset it does not list. */
  lemma DroppedIsNotOffered(r: Run, d: string, p: string, depth: nat)
    requires HonestServer(r.src.server, r.src.files, depth) && Dropped(r, d) && d <= p
    ensures !Offered(r, p)
  {
    if Offered(r, p) {
      var n :| d == r.t.root + n + "/" && Child(r.tgt.server.list(r.t.root), r.t.root, n, ViewOf(r.t, r.tgt.server));
      HeadBelow(p, r.t.root, n);
      assert Honest(r.src.server.list(r.t.root), r.src.files, r.t.root, depth);
      assert Child(r.src.server.list(r.t.root), r.t.root, n, ViewOf(r.t, r.src.server));
    }
  }

  ghost predicate Unoffered(r: Run, d: string) { forall p :: d <= p ==> !Offered(r, p) }

  /** What the deletion of a dataset takes with it: all that no mount below holds. */
  function Doomed(files: Files, t: Tree, d: string): (s: set<string>)
  {
    set p | p in files && d <= p && !OwnedByChild(p, t.mount, t.all)
  }

  lemma StageDrops(r: Run, done: set<string>, now: Files, d: string)
    requires Stage(r, done, now) && Dropped(r, d) && Unoffered(r, d)
    ensures Stage(r, done + Doomed(r.tgt.files, r.t, d), now - Doomed(now, r.t, d))
  {
    hide Offered, Held, OwnedByChild, Dropped;
    var done', now' := done + Doomed(r.tgt.files, r.t, d), now - Doomed(now, r.t, d);
    forall p ensures Holds(now', p, if p in done' then Outcome(r, p) else Was(r, p)) {
      assert Holds(now, p, if p in done then Outcome(r, p) else Was(r, p));
      if d <= p { assert Swept(r, p) && !Offered(r, p); }
    }
  }

  /** The datasets only the target has go one by one, until a request fails. */
  method DropDatasets(r: Run, gone: set<string>, sent: Files, dry: bool, writable: string -> bool, ghost done: set<string>)
    returns (now: Files, ok: bool, ghost done': set<string>)
    requires if dry then sent == r.tgt.files else Stage(r, done, sent)
    requires forall d :: d in gone ==> Dropped(r, d) && Unoffered(r, d)
    ensures if dry then now == r.tgt.files else Stage(r, done', now)
    ensures done <= done' && (ok ==> forall d, p :: d in gone && p in Doomed(r.tgt.files, r.t, d) ==> p in done')
    ensures (forall p :: writable(p)) ==> ok
  {
    hide Stage, Dropped, Unoffered, Doomed;
    now, ok, done' := sent, true, done;
    var left := gone;
    while left != {}
      invariant left <= gone && done <= done' && ok
      invariant if dry then now == r.tgt.files else Stage(r, done', now)
      invariant forall d, p :: d in gone - left && p in Doomed(r.tgt.files, r.t, d) ==> p in done'
    {
      var d :| d in left;
      if !dry {
        if !writable(d) {
          ok := false;
          return;
        }
        StageDrops(r, done', now, d);
        now := now - Doomed(now, r.t, d);
      }
      done' := done' + Doomed(r.tgt.files, r.t, d);
      left := left - {d};
    }
  }

  // ---- single leaves ---------------------------------------------------------

  /** A leaf only the target has, outside the datasets that go and no schema, is deleted. */
  ghost predicate Goes(r: Run, p: string) { !Offered(r, p) && !Swept(r, p) && !IsSchema(p) }

  lemma StagePrunes(r: Run, done: set<string>, now: Files, p: string)
    requires Stage(r, done, now) && r.prune && Held(r, p) && Goes(r, p)
    ensures Stage(r, done + {p}, now - {p})
  {
    hide Offered, Swept, Held, Same;
    assert p in r.tgt.files by { HeldIs(r, p); }
  }

  lemma HeldIs(r: Run, p: string)
    requires Held(r, p)
    ensures p in r.tgt.files
  {
  }

  /** The deletion loop over the target's leaves, until a request fails. */
  method Prune(r: Run, leaves: seq<Leaf>, offered: set<string>, gone: set<string>, sent: Files, dry: bool,
    writable: string -> bool, ghost done: set<string>) returns (now: Files, changes: nat, ok: bool, ghost done': set<string>)
    requires r.prune && (if dry then sent == r.tgt.files else Stage(r, done, sent))
    requires forall i :: 0 <= i < |leaves| ==> Held(r, leaves[i].path)
    requires forall p :: p in offered <==> Offered(r, p)
    requires forall d :: d in gone <==> Dropped(r, d)
    ensures if dry then now == r.tgt.files else Stage(r, done', now)
    ensures done <= done' && (ok ==> forall i :: 0 <= i < |leaves| && Goes(r, leaves[i].path) ==> leaves[i].path in done')
    ensures ok ==> (changes == 0 <==> forall i :: 0 <= i < |leaves| ==> !Goes(r, leaves[i].path))
    ensures (forall p :: writable(p)) ==> ok
  {
    hide Stage, Dropped, Offered, Held, IsSchema;
    now, changes, ok, done' := sent, 0, true, done;
    var i := 0;
    while i < |leaves|
      invariant 0 <= i <= |leaves| && ok && done <= done'
      invariant if dry then now == r.tgt.files else Stage(r, done', now)
      invariant forall j :: 0 <= j < i && Goes(r, leaves[j].path) ==> leaves[j].path in done'
      invariant changes == 0 <==> forall j :: 0 <= j < i ==> !Goes(r, leaves[j].path)
    {
      var p := leaves[i].path;
      var under := exists d :: d in gone && d <= p;
      if p !in offered && !under && !IsSchema(p) {
        if !dry {
          if !writable(p) {
            ok := false;
            return;
          }
          StagePrunes(r, done', now, p);
          now := now - {p};
        }
        changes := changes + 1;
        done' := done' + {p};
      }
      i := i + 1;
    }
  }

  // ---- `sync_tree` -----------------------------------------------------------

  datatype Ending = Finished | Skipped | Failed

  /** The source's root cannot be listed; only for specs does a missing root count as empty. */
  predicate SourceRefused(r: Run) {
    var status := r.src.server.status(r.t.root);
    status != 200 && !(status == 404 && r.k.sort == Specs)
  }

  predicate TargetRefused(r: Run) { r.tgt.server.status(r.t.root) != 200 && r.tgt.server.status(r.t.root) != 404 }

  ghost predicate Honestly(r: Run, depth: nat) {
    && Faithful(r.k) && HonestServer(r.src.server, r.src.files, depth) && HonestServer(r.tgt.server, r.tgt.files, depth)
  }

  method SideOf(t: Tree, n: Node, chunks: string -> nat -> nat, ghost depth: nat)
    returns (leaves: seq<Leaf>, dirs: set<string>)
    requires HonestServer(n.server, n.files, depth)
    ensures LeavesOf(leaves, t, n) && DirsOf(dirs, t, n)
  {
    var refused;
    refused, leaves, dirs := Walk(n.server, chunks, t.root, t.mount, t.all, n.files, depth);
  }

  lemma SendsRightly(r: Run, srcLeaves: seq<Leaf>, tgtLeaves: seq<Leaf>)
    requires LeavesOf(srcLeaves, r.t, r.src) && LeavesOf(tgtLeaves, r.t, r.tgt)
    ensures forall i :: 0 <= i < |srcLeaves| ==>
      Offered(r, srcLeaves[i].path) && IndexRight(r, IndexOf(tgtLeaves), srcLeaves[i].path)
    ensures forall i :: 0 <= i < |tgtLeaves| ==> Held(r, tgtLeaves[i].path)
    ensures forall p :: p in Paths(srcLeaves) <==> Offered(r, p)
    ensures forall p :: p in Paths(tgtLeaves) <==> Held(r, p)
  {
    hide Sees, IndexOf;
    forall i | 0 <= i < |srcLeaves|
      ensures Offered(r, srcLeaves[i].path) && IndexRight(r, IndexOf(tgtLeaves), srcLeaves[i].path)
    {
      LeafIn(srcLeaves, i);
      IndexIsRight(tgtLeaves, r.tgt.files, srcLeaves[i].path);
    }
    forall i | 0 <= i < |tgtLeaves| ensures Held(r, tgtLeaves[i].path) {
      LeafIn(tgtLeaves, i);
    }
  }

  lemma LeafAt(leaves: seq<Leaf>, p: string) returns (i: nat)
    requires p in Paths(leaves)
    ensures i < |leaves| && leaves[i].path == p
  {
    var l :| l in leaves && l.path == p;
    i :| 0 <= i < |leaves| && leaves[i] == l;
  }

  /** The paths a complete run has dealt with. */
  ghost predicate Complete(r: Run, done: set<string>) {
    && (forall p :: Offered(r, p) ==> p in done)
    && (forall d, p :: Dropped(r, d) && p in Doomed(r.tgt.files, r.t, d) ==> p in done)
    && (r.prune ==> forall p :: Held(r, p) && Goes(r, p) ==> p in done)
  }

  lemma CompleteIsResult(r: Run, done: set<string>, now: Files)
    requires Stage(r, done, now) && Complete(r, done)
    ensures Result(r, now)
  {
    hide Offered, Held, Dropped, OwnedByChild, IsSchema, Same;
    forall p ensures Holds(now, p, Outcome(r, p)) {
      assert Holds(now, p, if p in done then Outcome(r, p) else Was(r, p));
      if p !in done && p in r.tgt.files && Swept(r, p) {
        var d :| Dropped(r, d) && d <= p;
        assert p in Doomed(r.tgt.files, r.t, d) || OwnedByChild(p, r.t.mount, r.t.all);
      }
    }
  }

  lemma ConvergedIff(r: Run, srcLeaves: seq<Leaf>, tgtLeaves: seq<Leaf>, gone: set<string>)
    requires forall p :: p in Paths(srcLeaves) <==> Offered(r, p)
    requires forall p :: p in Paths(tgtLeaves) <==> Held(r, p)
    requires forall i :: 0 <= i < |srcLeaves| ==> Offered(r, srcLeaves[i].path)
    requires forall i :: 0 <= i < |tgtLeaves| ==> Held(r, tgtLeaves[i].path)
    requires forall d :: d in gone <==> Dropped(r, d)
    ensures Converged(r) <==>
      && (forall i :: 0 <= i < |srcLeaves| ==> Same(r, srcLeaves[i].path))
      && gone == {}
      && (r.prune ==> forall i :: 0 <= i < |tgtLeaves| ==> !Goes(r, tgtLeaves[i].path))
  {
    hide Offered, Held, Dropped, IsSchema, Same, Paths;
    if p :| Offered(r, p) && !Same(r, p) {
      var i := LeafAt(srcLeaves, p);
    } else if p :| Held(r, p) && !Offered(r, p) && !IsSchema(p) {
      var i := LeafAt(tgtLeaves, p);
    }
  }

  lemma PrunedIsComplete(r: Run, tgtLeaves: seq<Leaf>, gone: set<string>, sent: set<string>, done: set<string>)
    requires forall p :: p in sent <==> Offered(r, p)
    requires sent <= done && forall p :: p in Paths(tgtLeaves) <==> Held(r, p)
    requires forall d :: d in gone <==> Dropped(r, d)
    requires forall d, p :: d in gone && p in Doomed(r.tgt.files, r.t, d) ==> p in done
    requires forall i :: 0 <= i < |tgtLeaves| && Goes(r, tgtLeaves[i].path) ==> tgtLeaves[i].path in done
    ensures Complete(r, done)
  {
    hide Offered, Held, Dropped, Goes, Doomed, Paths;
    forall p | Held(r, p) && Goes(r, p) ensures p in done {
      var i := LeafAt(tgtLeaves, p);
    }
  }

  lemma SentIsComplete(r: Run, sent: set<string>)
    requires !r.prune && forall p :: p in sent <==> Offered(r, p)
    ensures Complete(r, sent)
  {
  }

  lemma GoneAre(r: Run, srcDirs: set<string>, tgtDirs: set<string>, depth: nat)
    requires Honestly(r, depth) && DirsOf(srcDirs, r.t, r.src) && DirsOf(tgtDirs, r.t, r.tgt) && r.prune
    ensures forall d :: d in (if r.k.sort == Datasets then Gone(srcDirs, tgtDirs, r.t.root) else {}) <==> Dropped(r, d)
    ensures forall d :: Dropped(r, d) ==> Unoffered(r, d)
  {
    hide IsDataset, DirsOf, Dataset;
    forall d ensures d in Gone(srcDirs, tgtDirs, r.t.root) && r.k.sort == Datasets <==> Dropped(r, d) {
      DirsAre(srcDirs, r.t, r.src, d);
      DirsAre(tgtDirs, r.t, r.tgt, d);
    }
    forall d | Dropped(r, d) ensures Unoffered(r, d) {
      forall p | d <= p ensures !Offered(r, p) {
        DroppedIsNotOffered(r, d, p, depth);
      }
    }
  }

  function Gone(srcDirs: set<string>, tgtDirs: set<string>, root: string): (s: set<string>)
  {
    set d | d in tgtDirs && d !in srcDirs && IsDataset(d, root)
  }

  /** `sync_tree`: the whole of it, with the requests that may fail. */
  method SyncTree(r: Run, dry: bool, chunks: string -> nat -> nat, readable: string -> bool,
    reachable: string -> bool, writable: string -> bool, ghost depth: nat) returns (end: Ending, now: Files, changes: nat)
    requires Honestly(r, depth)
    ensures end.Skipped? <==> SourceRefused(r)
    ensures dry || end.Skipped? ==> now == r.tgt.files
    ensures end.Failed? ==> dry || exists done :: Stage(r, done, now)
    ensures end.Finished? ==> (dry || Result(r, now)) && (changes == 0 <==> Converged(r))
    ensures (forall p :: readable(p) && reachable(p) && writable(p)) && !SourceRefused(r) && !TargetRefused(r) ==>
      end.Finished?
  {
    hide Sees, LeavesOf, DirsOf, HonestServer, Faithful, Stage, Offered, Held, Same, Dropped, Unoffered, Doomed, Goes,
      Converged, Result, Complete, IndexRight, IndexOf, Paths;
    now, changes := r.tgt.files, 0;
    if SourceRefused(r) {
      return Skipped, now, changes;
    }
    if TargetRefused(r) {
      NothingDone(r, []);
      return Failed, now, changes;
    }
    var srcLeaves, srcDirs := SideOf(r.t, r.src, chunks, depth);
    var tgtLeaves, tgtDirs := SideOf(r.t, r.tgt, chunks, depth);
    SendsRightly(r, srcLeaves, tgtLeaves);
    assert Distinct(srcLeaves) by { DistinctOf(srcLeaves, r.t, r.src); }
    var ok; ghost var done, sent;
    now, changes, ok, sent := Transfer(r, srcLeaves, IndexOf(tgtLeaves), dry, readable, reachable, writable);
    if !ok {
      return Failed, now, changes;
    }
    if !r.prune {
      assert forall d :: !Dropped(r, d) by { NoneDropped(r); }
      ConvergedIff(r, srcLeaves, tgtLeaves, {});
      if !dry {
        SentIsComplete(r, sent);
        CompleteIsResult(r, sent, now);
      }
      return Finished, now, changes;
    }
    GoneAre(r, srcDirs, tgtDirs, depth);
    var gone := if r.k.sort == Datasets then Gone(srcDirs, tgtDirs, r.t.root) else {};
    now, ok, done := DropDatasets(r, gone, now, dry, writable, sent);
    changes := changes + |gone|;
    if !ok {
      return Failed, now, changes;
    }
    var drops; ghost var done';
    var offered := set l | l in srcLeaves :: l.path;
    assert offered == Paths(srcLeaves) by { PathsAre(srcLeaves); }
    now, drops, ok, done' := Prune(r, tgtLeaves, offered, gone, now, dry, writable, done);
    changes := changes + drops;
    if !ok {
      return Failed, now, changes;
    }
    ConvergedIff(r, srcLeaves, tgtLeaves, gone);
    if !dry {
      PrunedIsComplete(r, tgtLeaves, gone, sent, done');
      CompleteIsResult(r, done', now);
    }
    end := Finished;
  }

  lemma DistinctOf(leaves: seq<Leaf>, t: Tree, n: Node)
    requires LeavesOf(leaves, t, n)
    ensures Distinct(leaves)
  {
  }

  lemma NoneDropped(r: Run)
    requires !r.prune
    ensures forall d :: !Dropped(r, d)
  {
  }

  lemma PathsAre(leaves: seq<Leaf>)
    ensures Paths(leaves) == set l | l in leaves :: l.path
  {
  }
}
