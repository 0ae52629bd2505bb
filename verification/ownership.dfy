/** Which mount's walk a container belongs to when mounts are nested. */
module Ownership {
  import opened SyncPlan

  /** The path is the mount's own, or lies below it. */
  predicate Under(path: string, mount: string) {
    path == mount || mount + "/" <= path
  }

  /** `owned_by_child`. */
  predicate OwnedByChild(container: string, mount: string, all: seq<string>) {
    exists i :: 0 <= i < |all| && Nested(TrimEnd(container), TrimEnd(mount), TrimEnd(all[i]))
  }

  /** Another mount below this one holds the container. */
  predicate Nested(container: string, mount: string, other: string) {
    other != mount && mount + "/" <= other && Under(container, other)
  }

  /** The search itself. */
  method IsOwnedByChild(container: string, mount: string, all: seq<string>) returns (owned: bool)
    ensures owned == OwnedByChild(container, mount, all)
  {
    var c, m := TrimEnd(container), TrimEnd(mount);
    var i := 0;
    while i < |all|
      invariant 0 <= i <= |all| && forall j :: 0 <= j < i ==> !Nested(c, m, TrimEnd(all[j]))
    {
      var other := TrimEnd(all[i]);
      if other != m && m + "/" <= other && (c == other || other + "/" <= c) {
        return true;
      }
      i := i + 1;
    }
    owned := false;
  }

  lemma UnderTransitive(a: string, b: string, c: string)
    requires Under(a, b) && Under(b, c)
    ensures Under(a, c)
  {
  }

  /** Of two mounts that hold a path, the longer lies below the shorter. */
  lemma HoldersNest(path: string, short: string, long: string)
    requires Under(path, short) && Under(path, long) && |short| <= |long|
    ensures if |short| == |long| then short == long else short + "/" <= long
  {
    assert short == path[..|short|] && long == path[..|long|];
    if |short| < |long| {
      assert short + "/" == path[..|short| + 1];
    }
  }

  /** A mount that holds the container, as deep as any. */
  predicate Deepest(container: string, mount: string, all: seq<string>) {
    && Under(TrimEnd(container), TrimEnd(mount))
    && forall i :: 0 <= i < |all| && Under(TrimEnd(container), TrimEnd(all[i])) ==> |TrimEnd(all[i])| <= |TrimEnd(mount)|
  }

  /** Every mount that holds the container yields it, except the deepest. */
  lemma YieldsUnlessDeepest(container: string, mount: string, all: seq<string>)
    requires Under(TrimEnd(container), TrimEnd(mount))
    ensures OwnedByChild(container, mount, all) <==> !Deepest(container, mount, all)
  {
    var c, m := TrimEnd(container), TrimEnd(mount);
    if i :| 0 <= i < |all| && Under(c, TrimEnd(all[i])) && |TrimEnd(all[i])| > |m| {
      HoldersNest(c, m, TrimEnd(all[i]));
      assert Nested(c, m, TrimEnd(all[i]));
    }
  }

  /** The position of a deepest holder among the first `n` mounts. */
  lemma {:induction false} DeepestAmong(container: string, all: seq<string>, n: nat) returns (i: nat)
    requires n <= |all| && exists j :: 0 <= j < n && Under(TrimEnd(container), TrimEnd(all[j]))
    ensures i < n && Deepest(container, all[i], all[..n])
    decreases n
  {
    hide TrimEnd, Under;
    var c, last := TrimEnd(container), TrimEnd(all[n - 1]);
    if j :| 0 <= j < n - 1 && Under(c, TrimEnd(all[j])) {
      i := DeepestAmong(container, all, n - 1);
      assert forall k :: 0 <= k < n - 1 ==> all[..n][k] == all[..n - 1][k];
      if Under(c, last) && |last| > |TrimEnd(all[i])| { i := n - 1; }
    } else {
      i := n - 1;
    }
  }

  /** Among distinct mounts, every container under some mount is walked by exactly one. */
  lemma ExactlyOneOwner(container: string, all: seq<string>) returns (owner: nat)
    requires forall i, j :: 0 <= i < j < |all| ==> TrimEnd(all[i]) != TrimEnd(all[j])
    requires exists j :: 0 <= j < |all| && Under(TrimEnd(container), TrimEnd(all[j]))
    ensures owner < |all| && Under(TrimEnd(container), TrimEnd(all[owner]))
    ensures forall i :: 0 <= i < |all| && Under(TrimEnd(container), TrimEnd(all[i])) ==>
      (OwnedByChild(container, all[i], all) <==> i != owner)
  {
    var c := TrimEnd(container);
    owner := DeepestAmong(container, all, |all|);
    assert all[..|all|] == all;
    forall i | 0 <= i < |all| && Under(c, TrimEnd(all[i]))
      ensures OwnedByChild(container, all[i], all) <==> i != owner
    {
      YieldsUnlessDeepest(container, all[i], all);
      if Deepest(container, all[i], all) {
        HoldersNest(c, TrimEnd(all[i]), TrimEnd(all[owner]));
      }
    }
  }

  /** What a nested mount owns it owns to the bottom, so skipping a container loses nothing of this walk's. */
  lemma OwnershipGoesDown(container: string, below: string, mount: string, all: seq<string>)
    requires OwnedByChild(container, mount, all) && Under(TrimEnd(below), TrimEnd(container))
    ensures OwnedByChild(below, mount, all)
  {
    hide TrimEnd, Under;
    var i :| 0 <= i < |all| && Nested(TrimEnd(container), TrimEnd(mount), TrimEnd(all[i]));
    UnderTransitive(TrimEnd(below), TrimEnd(container), TrimEnd(all[i]));
    assert Nested(TrimEnd(below), TrimEnd(mount), TrimEnd(all[i]));
  }
}
