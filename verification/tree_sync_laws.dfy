/** What a run of `sync_tree` promises, over every tree and every listing. */
module TreeSyncLaws {
  import opened Text
  import opened SyncPlan
  import opened Ownership
  import opened TreeWalk
  import opened TreeSync

  // ---- what is left ----------------------------------------------------------

  /** After a run every leaf offered is there and compares equal. */
  lemma OfferedArrive(r: Run, now: Files, p: string)
    requires Faithful(r.k) && Result(r, now) && Offered(r, p)
    ensures p in now && r.k.canon(now[p]) == r.k.canon(r.src.files[p])
  {
    assert Holds(now, p, Outcome(r, p));
  }

  /** A leaf both sides list as below a dataset shows it on both. */
  lemma ListedDataset(t: Tree, server: Server, files: Files, other: Server, d: string, p: string, depth: nat)
    requires HonestServer(server, files, depth) && server.status(t.root) == 200 && p in files && d <= p
    requires Dataset(t, other, d)
    ensures Dataset(t, server, d)
  {
    var n :| d == t.root + n + "/" && Child(other.list(t.root), t.root, n, ViewOf(t, other));
    HeadBelow(p, t.root, n);
    assert Honest(server.list(t.root), files, t.root, depth);
    assert Child(server.list(t.root), t.root, n, ViewOf(t, server));
  }

  /** No dataset that holds a leaf of the source's is dropped. */
  lemma SourceIsNotSwept(r: Run, p: string, depth: nat)
    requires Honestly(r, depth) && !SourceRefused(r) && p in r.src.files
    ensures !Swept(r, p)
  {
    hide Dataset;
    if d :| Dropped(r, d) && d <= p {
      ListedDataset(r.t, r.src.server, r.src.files, r.tgt.server, d, p, depth);
    }
  }

  /**
    A run loses a leaf that both sides have exactly when it prunes, the leaf is
    no schema, and the target's walk finds it where the source's does not.
   */
  lemma LostIff(r: Run, now: Files, p: string, depth: nat)
    requires Honestly(r, depth) && !SourceRefused(r) && Result(r, now) && p in r.src.files && p in r.tgt.files
    ensures p !in now <==>
      r.prune && !IsSchema(p) && Sees(r.t, r.tgt.server, p) && !Sees(r.t, r.src.server, p)
  {
    SourceIsNotSwept(r, p, depth);
    hide Sees, IsSchema, Swept;
    assert Holds(now, p, Outcome(r, p));
  }

  /** For a leaf that either walk would find, what keeps the source's from it is a container it cannot list. */
  lemma UnseenIff(r: Run, p: string)
    requires Sees(r.t, r.tgt.server, p) && r.src.server.status(r.t.root) == 200
    ensures !Sees(r.t, r.src.server, p) <==> !Open(p, r.t.root, r.src.server.status)
  {
    ReachedIff(p, r.t.root, ViewOf(r.t, r.src.server));
    ReachedIff(p, r.t.root, ViewOf(r.t, r.tgt.server));
  }

  /** A schema outside the datasets that go, or a leaf of another mount's in one that does. */
  ghost predicate Retained(r: Run, p: string) {
    p in r.tgt.files && if Swept(r, p) then OwnedByChild(p, r.t.mount, r.t.all) else IsSchema(p)
  }

  /** With pruning, a leaf the target's walk finds stays exactly if it is offered or retained. */
  lemma PrunedLeavesCoincide(r: Run, now: Files, p: string)
    requires Result(r, now) && r.prune && Sees(r.t, r.tgt.server, p)
    ensures p in now <==> Offered(r, p) || Retained(r, p)
  {
    hide Sees, IsSchema, Swept;
    assert Holds(now, p, Outcome(r, p));
  }

  /** A schema the source lacks is kept only in a dataset the source has. */
  lemma KeptSchemasAreListed(r: Run, now: Files, p: string, d: string)
    requires Result(r, now) && r.prune && r.k.sort == Datasets && p in now && !Offered(r, p)
    requires Sees(r.t, r.tgt.server, p) && Dataset(r.t, r.tgt.server, d) && d <= p && !OwnedByChild(p, r.t.mount, r.t.all)
    ensures IsSchema(p) && Dataset(r.t, r.src.server, d)
  {
    PrunedLeavesCoincide(r, now, p);
    hide Sees, IsSchema, Dataset;
    assert Dropped(r, d) ==> Swept(r, p);
  }

  /** What neither walk finds, and without pruning what only the target has, is not touched. */
  lemma OthersStay(r: Run, now: Files, p: string)
    requires Result(r, now) && p in r.tgt.files && !Offered(r, p) && !Swept(r, p) && (!r.prune || !Held(r, p))
    ensures p in now && now[p] == r.tgt.files[p]
  {
    assert Holds(now, p, Outcome(r, p));
  }

  /** The target alone shows a dataset that holds the leaf. */
  ghost predicate InLoneDataset(r: Run, p: string) {
    exists d :: Dataset(r.t, r.tgt.server, d) && !Dataset(r.t, r.src.server, d) && d <= p
  }

  lemma SweptIs(r: Run, p: string)
    ensures Swept(r, p) <==> r.prune && r.k.sort == Datasets && InLoneDataset(r, p)
  {
    hide Dataset;
    if r.prune && r.k.sort == Datasets && InLoneDataset(r, p) {
      var d :| Dataset(r.t, r.tgt.server, d) && !Dataset(r.t, r.src.server, d) && d <= p;
      assert Dropped(r, d);
    }
  }

  lemma SchemaIs(p: string)
    ensures IsSchema(p) <==> exists q: string :: p == q + "/.schema.json"
  {
    if IsSchema(p) { assert p == p[..|p| - 13] + "/.schema.json"; }
  }

  /**
    A run deletes a leaf exactly when it prunes, the source does not offer it, and
    it lies in a dataset only the target shows and is not another mount's, or
    elsewhere the target's walk finds it and it is no schema. What else the target
    alone has keeps its content.
   */
  lemma DeletedIff(r: Run, now: Files, p: string)
    requires Result(r, now) && p in r.tgt.files
    ensures p !in now <==>
      && r.prune && !Offered(r, p)
      && (if r.k.sort == Datasets && InLoneDataset(r, p) then !OwnedByChild(p, r.t.mount, r.t.all)
          else Sees(r.t, r.tgt.server, p) && !exists q: string :: p == q + "/.schema.json")
    ensures p in now && !Offered(r, p) ==> now[p] == r.tgt.files[p]
  {
    SchemaIs(p);
    SweptIs(r, p);
    hide Sees, IsSchema, Swept, InLoneDataset;
    assert Holds(now, p, Outcome(r, p));
  }

  /** A leaf offered is reported as skipped, created or updated by what the target shows and serves of it. */
  lemma VerdictMeans(r: Run, index: map<string, Option<nat>>, p: string)
    requires Offered(r, p)
    ensures Verdict(r, index, p) == Skip <==>
      Held(r, p) && r.tgt.serves(p) && r.k.canon(r.tgt.files[p]) == r.k.canon(r.src.files[p])
    ensures !Held(r, p) ==> Verdict(r, index, p) == Create
    ensures Held(r, p) && r.tgt.serves(p) && r.k.canon(r.tgt.files[p]) != r.k.canon(r.src.files[p]) ==>
      Verdict(r, index, p) == Update
    ensures Held(r, p) && !r.tgt.serves(p) ==>
      (Verdict(r, index, p) == Update <==>
        r.k.sort == Opaque && p in index && index[p].Some? && index[p].value != |r.src.files[p]|)
  {
    hide Sees;
  }

  // ---- running again ---------------------------------------------------------

  /** How the target answers after a run: the listings, and the leaves it serves. */
  datatype Answers = Answers(server: Server, serves: string -> bool)

  /** The run over what a former one left, as the target then answers. */
  function Again(r: Run, now: Files, a: Answers): Run { r.(tgt := Node(now, a.server, a.serves)) }

  /** Of the leaves that were there, the target's walk finds the same ones as before, and it serves the same. */
  ghost predicate SameView(r: Run, a: Answers) {
    forall p :: p in r.tgt.files ==>
      (Sees(r.t, a.server, p) <==> Sees(r.t, r.tgt.server, p)) && (a.serves(p) <==> r.tgt.serves(p))
  }

  ghost predicate Rerun(r: Run, done: set<string>, mid: Files, a: Answers, depth: nat) {
    && Honestly(r, depth) && HonestServer(a.server, mid, depth) && SameView(r, a) && Stage(r, done, mid)
    && !TargetRefused(r) && !TargetRefused(Again(r, mid, a))
  }

  /** For a leaf still there, the same datasets go. */
  lemma SweptAgain(r: Run, done: set<string>, mid: Files, a: Answers, depth: nat, p: string)
    requires Rerun(r, done, mid, a, depth) && p in mid && p in r.tgt.files
    ensures Swept(Again(r, mid, a), p) <==> Swept(r, p)
  {
    var r' := Again(r, mid, a);
    hide Sees, SameView, Stage, Faithful;
    if d :| Dropped(r', d) && d <= p {
      assert r.t.root < p by { DatasetIsBelow(r.t, a.server, d); }
      ListedDataset(r.t, r.tgt.server, r.tgt.files, a.server, d, p, depth);
      assert Dropped(r, d);
    }
    if d :| Dropped(r, d) && d <= p {
      assert r.t.root < p by { DatasetIsBelow(r.t, r.tgt.server, d); }
      ListedDataset(r.t, a.server, mid, r.tgt.server, d, p, depth);
      assert Dropped(r', d);
    }
  }

  lemma DatasetIsBelow(t: Tree, server: Server, d: string)
    requires Dataset(t, server, d)
    ensures t.root < d
  {
  }

  /** Wherever the first run stopped, the second means to leave at each path what the first did. */
  lemma OutcomeAgain(r: Run, done: set<string>, mid: Files, a: Answers, depth: nat, p: string)
    requires Rerun(r, done, mid, a, depth)
    ensures Outcome(Again(r, mid, a), p) == Outcome(r, p)
  {
    if p in mid && p in r.tgt.files { SweptAgain(r, done, mid, a, depth, p); }
    hide Sees, HonestServer, Swept, IsSchema, OwnedByChild;
    assert Holds(mid, p, if p in done then Outcome(r, p) else Was(r, p));
    assert Offered(Again(r, mid, a), p) <==> Offered(r, p);
  }

  /** A run that failed part of the way, and one that then finishes, end where one run would have. */
  lemma ResumedRunFinishes(r: Run, done: set<string>, mid: Files, a: Answers, depth: nat, now: Files)
    requires Rerun(r, done, mid, a, depth) && Result(Again(r, mid, a), now)
    ensures Result(r, now)
  {
    hide Rerun, Outcome;
    forall p ensures Holds(now, p, Outcome(r, p)) {
      OutcomeAgain(r, done, mid, a, depth, p);
      assert Holds(now, p, Outcome(Again(r, mid, a), p));
    }
  }

  lemma ResultIsStage(r: Run, now: Files)
    requires Result(r, now)
    ensures Stage(r, r.src.files.Keys + r.tgt.files.Keys, now)
  {
    hide Sees, Swept;
    forall p ensures p in r.src.files.Keys + r.tgt.files.Keys || Outcome(r, p) == Was(r, p) {
    }
  }

  lemma ResultIsUnique(r: Run, now: Files, other: Files)
    requires Result(r, now) && Result(r, other)
    ensures now == other
  {
    hide Outcome;
    forall p ensures (p in now <==> p in other) && (p in now ==> now[p] == other[p]) {
      assert Holds(now, p, Outcome(r, p)) && Holds(other, p, Outcome(r, p));
    }
  }

  /** A second run leaves everything as it is. */
  lemma SecondRunStays(r: Run, once: Files, a: Answers, depth: nat, twice: Files)
    requires Rerun(r, r.src.files.Keys + r.tgt.files.Keys, once, a, depth) && Result(r, once)
    requires Result(Again(r, once, a), twice)
    ensures twice == once
  {
    hide Rerun, Result;
    ResumedRunFinishes(r, r.src.files.Keys + r.tgt.files.Keys, once, a, depth, twice);
    ResultIsUnique(r, once, twice);
  }

  /**
    A second run has nothing to do if and only if the target's walk finds every
    leaf offered, the target serves each, and it lists no dataset to drop.
   */
  lemma SecondRunIdleIff(r: Run, once: Files, a: Answers, depth: nat)
    requires Rerun(r, r.src.files.Keys + r.tgt.files.Keys, once, a, depth) && Result(r, once)
    ensures Converged(Again(r, once, a)) <==>
      && (forall p :: Offered(r, p) ==> Sees(r.t, a.server, p) && a.serves(p))
      && forall d :: !Dropped(Again(r, once, a), d)
  {
    var r', done := Again(r, once, a), r.src.files.Keys + r.tgt.files.Keys;
    assert forall p :: Offered(r', p) <==> Offered(r, p);
    if Converged(r') {
      hide Sees, Dropped;
      forall p | Offered(r, p) ensures Sees(r.t, a.server, p) && a.serves(p) {
        assert Same(r', p);
      }
    } else if (forall p :: Offered(r, p) ==> Sees(r.t, a.server, p) && a.serves(p)) && forall d :: !Dropped(r', d) {
      hide Rerun, Sees, Dropped;
      forall p | Offered(r', p) ensures Same(r', p) {
        assert Faithful(r.k) by { RerunIs(r, done, once, a, depth); }
        OfferedArrive(r, once, p);
      }
      forall p | Held(r', p) && !Offered(r', p) && r.prune ensures IsSchema(p) {
        LeftIsSchema(r, done, once, a, depth, p);
      }
    }
  }

  lemma RerunIs(r: Run, done: set<string>, mid: Files, a: Answers, depth: nat)
    requires Rerun(r, done, mid, a, depth)
    ensures Faithful(r.k)
  {
  }

  lemma LeftIsSchema(r: Run, done: set<string>, once: Files, a: Answers, depth: nat, p: string)
    requires Rerun(r, done, once, a, depth) && Result(r, once) && r.prune && !Offered(r, p)
    requires p in once && Sees(r.t, a.server, p) && !Swept(Again(r, once, a), p)
    ensures IsSchema(p)
  {
    assert Holds(once, p, Outcome(r, p));
    SweptAgain(r, done, once, a, depth, p);
    assert SameView(r, a);
  }

  /** Where every container can be listed, a walk reaches all that is visible. */
  lemma {:induction false} AllReached(p: string, c: string, w: View)
    requires Visible(p, c, w.mount, w.all) && forall d :: w.status(d) == 200
    ensures Reached(p, c, w)
    decreases |p| - |c|
  {
    if Head(p, c).1 {
      AllReached(p, p[..|c| + |Head(p, c).0| + 1], w);
    }
  }

  /** A target that lists every container and serves every leaf has nothing to do in a second run but drop datasets. */
  lemma SecondRunIdle(r: Run, once: Files, a: Answers, depth: nat)
    requires Rerun(r, r.src.files.Keys + r.tgt.files.Keys, once, a, depth) && Result(r, once)
    requires (forall c :: a.server.status(c) == 200) && (forall p :: a.serves(p))
    requires forall d :: !Dropped(Again(r, once, a), d)
    ensures Converged(Again(r, once, a))
  {
    forall p | Offered(r, p) ensures Sees(r.t, a.server, p) && a.serves(p) {
      ReachedIff(p, r.t.root, ViewOf(r.t, r.src.server));
      AllReached(p, r.t.root, ViewOf(r.t, a.server));
    }
    hide Rerun, Result, Offered, Sees, Dropped;
    SecondRunIdleIff(r, once, a, depth);
  }

  ghost predicate Relists(r: Run, relist: Files -> Answers, depth: nat) {
    forall now: Files :: Result(r, now) ==>
      HonestServer(relist(now).server, now, depth) && SameView(r, relist(now)) && !TargetRefused(Again(r, now, relist(now)))
  }

  /** Two runs in a row, whatever the target then lists. */
  method SyncTwice(r: Run, relist: Files -> Answers, chunks: string -> nat -> nat, ghost depth: nat)
    returns (once: Files, twice: Files, changes: nat)
    requires Honestly(r, depth) && !SourceRefused(r) && !TargetRefused(r) && Relists(r, relist, depth)
    ensures Result(r, once) && twice == once
    ensures changes == 0 <==>
      && (forall p :: Offered(r, p) ==> Sees(r.t, relist(once).server, p) && relist(once).serves(p))
      && forall d :: !Dropped(Again(r, once, relist(once)), d)
  {
    hide HonestServer, Faithful, Result, Converged, Stage, Sees, Dropped, SameView, Offered;
    var end, first;
    end, once, first := SyncTree(r, false, chunks, p => true, p => true, p => true, depth);
    ResultIsStage(r, once);
    ghost var done := r.src.files.Keys + r.tgt.files.Keys;
    assert Rerun(r, done, once, relist(once), depth);
    var r' := Again(r, once, relist(once));
    end, twice, changes := SyncTree(r', false, chunks, p => true, p => true, p => true, depth);
    SecondRunStays(r, once, relist(once), depth, twice);
    SecondRunIdleIff(r, once, relist(once), depth);
  }

  // ---- a container the source cannot list ------------------------------------

  const LEAF: string := "/d/a/x"
  const TREE: Tree := Tree("/d/", "/d", ["/d"])
  const FILES: Files := map[LEAF := []]

  function Entries(c: string): seq<Entry>
  {
    if c == "/d/" then [Entry("a", true, None)] else if c == "/d/a/" then [Entry("x", false, None)] else []
  }

  /** A node with the one leaf, whose inner container is listed with a given status. */
  function OneLeaf(status: nat): Node
  {
    Node(FILES, Server(Entries, c => if c == "/d/" then 200 else if c == "/d/a/" then status else 500), p => true)
  }

  lemma OneLeafIsHonest(status: nat)
    requires status != 404
    ensures HonestServer(OneLeaf(status).server, FILES, 6)
  {
    assert "/d/" + "a" + "/" <= LEAF && "/d/a/" + "x" == LEAF;
    HeadBelow(LEAF, "/d/", "a");
    HeadOfLeaf("/d/a/", "x");
    assert TrimEnd("a") == "a" && TrimEnd("x") == "x";
    var outer, inner := Entries("/d/"), Entries("/d/a/");
    assert Id(outer[0]) == Head(LEAF, "/d/") && Id(inner[0]) == Head(LEAF, "/d/a/");
    hide Head, TrimEnd, Entries;
    assert Honest(outer, FILES, "/d/", 6);
    assert Honest(inner, FILES, "/d/a/", 6);
  }

  lemma OneLeafIsReached(status: nat)
    ensures Sees(TREE, OneLeaf(status).server, LEAF) <==> status == 200
  {
    assert "/d/" + "a" + "/" <= LEAF && "/d/a/" + "x" == LEAF;
    HeadBelow(LEAF, "/d/", "a");
    HeadOfLeaf("/d/a/", "x");
    assert TrimEnd("a") == "a" && TrimEnd("x") == "x";
    assert !OwnedByChild("/d/a/", "/d", ["/d"]);
  }

  /** The source refuses to list a container, and a pruned run deletes the leaf below it that both sides have. */
  lemma UnlistableLosesLeaf() returns (r: Run, now: Files)
    ensures Honestly(r, 6) && !SourceRefused(r) && !TargetRefused(r) && Result(r, now)
    ensures LEAF in r.src.files && LEAF in r.tgt.files && r.src.files[LEAF] == r.tgt.files[LEAF] && LEAF !in now
  {
    r := Run(Kind(b => b, b => b, Opaque), TREE, true, OneLeaf(403), OneLeaf(200));
    now := map[];
    OneLeafIsHonest(403);
    OneLeafIsHonest(200);
    OneLeafIsReached(403);
    OneLeafIsReached(200);
    hide Sees;
    assert forall d :: !Dropped(r, d);
    assert !IsSchema(LEAF);
    forall p ensures Outcome(r, p) == None {
    }
  }

  /** A leaf the target lists and refuses to serve is written by every run, though it is the same on both sides. */
  lemma UnservedIsRewritten() returns (r: Run, a: Answers)
    ensures Honestly(r, 6) && r.src.files == r.tgt.files && a == Answers(r.tgt.server, r.tgt.serves)
    ensures (forall p :: Offered(r, p) ==> Sees(r.t, a.server, p)) && (forall d :: !Dropped(r, d))
    ensures Result(r, r.tgt.files) && Again(r, r.tgt.files, a) == r && !Converged(r)
  {
    r := Run(Kind(b => b, b => b, Opaque), TREE, true, OneLeaf(200), OneLeaf(200).(serves := p => false));
    a := Answers(r.tgt.server, r.tgt.serves);
    OneLeafIsHonest(200);
    OneLeafIsReached(200);
    hide Sees;
    assert forall d :: !Dropped(r, d);
    assert Offered(r, LEAF) && !Same(r, LEAF);
    forall p ensures Outcome(r, p) == if p == LEAF then Some([]) else None {
    }
  }
}
