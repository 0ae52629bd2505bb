/** The walks of all mounts together reach every plain leaf exactly once. */
module WalkCoverage {
  import opened SyncPlan
  import opened Ownership
  import opened TreeWalk

  /** Every name from the container down is one a walk enters. */
  predicate Plain(path: string, container: string)
    decreases |path| - |container|
  {
    && container < path
    && var h := Head(path, container);
    && h.0 != "" && !(".rs2-" <= h.0)
    && (h.1 ==> Plain(path, path[..|container| + |h.0| + 1]))
  }

  /** Where a mount's walk starts. */
  function Root(mount: string): string { TrimEnd(mount) + "/" }

  lemma TrimContainer(c: string, n: string)
    requires n != "" && '/' !in n
    ensures TrimEnd(c + n + "/") == c + n
  {
    var d := c + n + "/";
    assert d[|d| - 1] == '/' && d[..|d| - 1] == c + n;
    assert (c + n)[|c + n| - 1] == n[|n| - 1];
  }

  /** The other mount lies below this one. */
  predicate Below(other: string, mount: string) {
    TrimEnd(other) != TrimEnd(mount) && Root(mount) <= TrimEnd(other)
  }

  /** A mount below, whose root lies past the container, holds the leaf. */
  ghost predicate Taken(path: string, c: string, mount: string, all: seq<string>) {
    exists i :: 0 <= i < |all| && Below(all[i], mount) && |c| < |Root(all[i])| && Root(all[i]) <= path
  }

  /** The container `c + n + "/"` is a mount's below, or lies past one's root, exactly when it is owned. */
  lemma OwnedMeans(c: string, n: string, mount: string, all: seq<string>)
    requires n != "" && '/' !in n
    ensures OwnedByChild(c + n + "/", mount, all) <==>
      exists i :: 0 <= i < |all| && Below(all[i], mount) && Root(all[i]) <= c + n + "/"
  {
    TrimContainer(c, n);
    var d := c + n + "/";
    forall i | 0 <= i < |all|
      ensures Nested(TrimEnd(d), TrimEnd(mount), TrimEnd(all[i])) <==> Below(all[i], mount) && Root(all[i]) <= d
    {
      hide TrimEnd;
      RootIsPrefix(c + n, TrimEnd(all[i]));
    }
    hide TrimEnd, Nested, Below, Root;
  }

  lemma RootIsPrefix(x: string, m: string)
    ensures Under(x, m) <==> m + "/" <= x + "/"
  {
    if m + "/" <= x + "/" {
      assert (x + "/")[|m|] == '/';
      assert |m| == |x| ==> m == (x + "/")[..|m|] == x;
      assert |m| < |x| ==> m + "/" == (x + "/")[..|m| + 1] == x[..|m| + 1];
    }
  }

  /** A walk sees a leaf exactly when its names are plain and no mount below this one holds it. */
  lemma {:induction false} VisibleIff(path: string, c: string, mount: string, all: seq<string>)
    requires forall i :: 0 <= i < |all| && Below(all[i], mount) ==> !(Root(all[i]) <= c)
    ensures Visible(path, c, mount, all) <==> Plain(path, c) && !Taken(path, c, mount, all)
    decreases |path| - |c|
  {
    if !(c < path) { return; }
    HeadGives(path, c);
    var h := Head(path, c);
    if h.0 == "" || IsReserved(h.0) { return; }
    if h.1 {
      var sub := c + h.0 + "/";
      OwnedMeans(c, h.0, mount, all);
      TakenFurther(path, c, h.0, mount, all);
      if !OwnedByChild(sub, mount, all) {
        VisibleIff(path, sub, mount, all);
      }
      hide OwnedByChild, Below, Root, Head, IsReserved;
    } else {
      NotTakenHere(path, c, h.0, mount, all);
    }
  }

  /** A leaf of the container itself is in no mount below. */
  lemma NotTakenHere(path: string, c: string, n: string, mount: string, all: seq<string>)
    requires path == c + n && '/' !in n
    ensures !Taken(path, c, mount, all)
  {
    hide TrimEnd, Below;
    assert forall j :: |c| <= j < |path| ==> path[j] != '/';
    assert forall i :: 0 <= i < |all| ==> Root(all[i])[|Root(all[i])| - 1] == '/';
  }

  lemma ShorterPrefix(r: string, c: string, sub: string)
    requires r <= sub && c <= sub
    ensures |r| <= |c| ==> r <= c
  {
    assert r == sub[..|r|] && c == sub[..|c|];
  }

  /** Either a mount below starts at the next container, or it starts further down. */
  lemma TakenFurther(path: string, c: string, n: string, mount: string, all: seq<string>)
    requires n != "" && '/' !in n && c + n + "/" <= path
    requires forall i :: 0 <= i < |all| && Below(all[i], mount) ==> !(Root(all[i]) <= c)
    ensures var sub := c + n + "/";
      Taken(path, c, mount, all) <==>
        (exists i :: 0 <= i < |all| && Below(all[i], mount) && Root(all[i]) <= sub) || Taken(path, sub, mount, all)
  {
    hide TrimEnd, Below, Root;
    var sub := c + n + "/";
    if i :| 0 <= i < |all| && Below(all[i], mount) && |c| < |Root(all[i])| && Root(all[i]) <= path {
      if |Root(all[i])| <= |sub| {
        assert Root(all[i]) == path[..|Root(all[i])|] <= sub;
      }
    }
    if i :| 0 <= i < |all| && Below(all[i], mount) && Root(all[i]) <= sub {
      ShorterPrefix(Root(all[i]), c, sub);
    }
  }

  lemma RootIsClear(mount: string, all: seq<string>)
    ensures forall i :: 0 <= i < |all| && Below(all[i], mount) ==> !(Root(all[i]) <= Root(mount))
  {
  }

  /** No leaf is walked from two mounts. */
  lemma WalkedOnce(path: string, mount: string, other: string, all: seq<string>)
    requires mount in all && other in all && TrimEnd(mount) != TrimEnd(other)
    ensures !(Visible(path, Root(mount), mount, all) && Visible(path, Root(other), other, all))
  {
    RootIsClear(mount, all);
    RootIsClear(other, all);
    VisibleIff(path, Root(mount), mount, all);
    VisibleIff(path, Root(other), other, all);
    hide TrimEnd, Visible, Taken;
    if Root(mount) <= path && Root(other) <= path {
      if |Root(mount)| <= |Root(other)| {
        HolderTakes(path, mount, other, all);
      } else {
        HolderTakes(path, other, mount, all);
      }
    }
  }

  lemma HolderTakes(path: string, short: string, long: string, all: seq<string>)
    requires long in all && TrimEnd(short) != TrimEnd(long) && |Root(short)| <= |Root(long)|
    requires Root(short) <= path && Root(long) <= path
    ensures Taken(path, Root(short), short, all)
  {
    var i :| 0 <= i < |all| && all[i] == long;
    hide TrimEnd;
    HoldersNest(path, TrimEnd(short), TrimEnd(long));
    assert Below(all[i], short);
  }

  /** And every plain leaf under some mount is walked from one: the deepest that holds it. */
  lemma WalkedByTheDeepest(path: string, mount: string, all: seq<string>)
    requires Plain(path, Root(mount))
    requires forall i :: 0 <= i < |all| && Root(all[i]) <= path ==> |Root(all[i])| <= |Root(mount)|
    ensures Visible(path, Root(mount), mount, all)
  {
    RootIsClear(mount, all);
    VisibleIff(path, Root(mount), mount, all);
  }
}
