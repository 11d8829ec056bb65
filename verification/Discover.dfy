// Finding repositories below a directory (crates/repomon-core/src/registry.rs:227-258).
module Discover {
  import opened Prelude
  import opened Sorting
  import opened Text

  type Path = seq<string>

  // What the walk can ask: whether a directory contains .git, which names a directory has when it
  // can be read, whether a path is a directory, and a path's canonical form (the path itself if
  // there is none).
  datatype Fs = Fs(
    hasGit: Path -> bool, entries: Path -> Option<seq<string>>, isDir: Path -> bool, canon: Path -> Path)

  const SKIPPED: seq<string> := [".git", "node_modules", "target", ".cargo", ".venv", "vendor"]

  // ---------------------------------------------------------------- what is to be found

  predicate Enters(fs: Fs, dir: Path, name: string) {
    && fs.entries(dir).Some? && name in fs.entries(dir).value
    && fs.isDir(dir + [name]) && name !in SKIPPED
  }

  // `p` is reached from the root through directories that may be entered and have no .git.
  predicate Reached(fs: Fs, root: Path, p: Path)
    decreases |p|
  {
    p == root ||
    (&& |root| < |p| && Reached(fs, root, p[..|p| - 1])
     && !fs.hasGit(p[..|p| - 1]) && Enters(fs, p[..|p| - 1], p[|p| - 1]))
  }

  ghost predicate Wanted(fs: Fs, root: Path, maxDepth: nat, p: Path) {
    Reached(fs, root, p) && |p| <= |root| + maxDepth && fs.hasGit(p)
  }

  // A directory with .git is to be found exactly when it is at most so deep below the root, none of the
  // directories on the way has .git, each of them can be read and lists the next, and nothing on the
  // way, itself included, is a dependency or build directory.
  lemma {:induction false} WantedExactly(fs: Fs, root: Path, maxDepth: nat, p: Path)
    ensures
      Wanted(fs, root, maxDepth, p)
      <==>
      && root <= p && |p| - |root| <= maxDepth && fs.hasGit(p)
      && forall n :: |root| <= n < |p| ==>
           && !fs.hasGit(p[..n]) && fs.entries(p[..n]).Some? && p[n] in fs.entries(p[..n]).value
           && fs.isDir(p[..n] + [p[n]])
           && p[n] !in {".git", "node_modules", "target", ".cargo", ".venv", "vendor"}
  {
    ReachedExactly(fs, root, p);
    assert p[..|p|] == p;
  }

  lemma {:induction false} ReachedExactly(fs: Fs, root: Path, p: Path)
    ensures
      Reached(fs, root, p)
      <==> root <= p && forall n :: |root| <= n < |p| ==> !fs.hasGit(p[..n]) && Enters(fs, p[..n], p[n])
    decreases |p|
  {
    if |p| > |root| {
      var parent := p[..|p| - 1];
      ReachedExactly(fs, root, parent);
      assert p == parent + [p[|p| - 1]];
      assert forall n :: |root| <= n < |parent| ==> parent[..n] == p[..n] && parent[n] == p[n];
      assert root <= p <==> root <= parent;
    } else {
      assert root <= p <==> p == root;
    }
  }

  ghost predicate IsResult(found: seq<Path>, fs: Fs, root: Path, maxDepth: nat) {
    && (forall x :: x in found <==> exists p :: Wanted(fs, root, maxDepth, p) && fs.canon(p) == x)
    && (forall i, j :: 0 <= i < j < |found| ==> PathLe(found[i], found[j]) && found[i] != found[j])
  }

  // ---------------------------------------------------------------- ancestors

  lemma {:induction false} RootIsAncestor(fs: Fs, root: Path, p: Path)
    requires Reached(fs, root, p)
    ensures root <= p
    decreases |p|
  {
    if p != root { RootIsAncestor(fs, root, p[..|p| - 1]); }
  }

  // On the way to `p`, a proper ancestor below the root is reached itself, has no .git, and lets
  // the next component in.
  lemma {:induction false} Through(fs: Fs, root: Path, p: Path, dir: Path)
    requires Reached(fs, root, p) && root <= dir <= p && dir != p
    ensures !fs.hasGit(dir) && Enters(fs, dir, p[|dir|]) && Reached(fs, root, dir + [p[|dir|]])
    decreases |p|
  {
    var parent := p[..|p| - 1];
    if dir == parent {
      assert dir + [p[|dir|]] == p;
    } else {
      assert dir <= parent;
      Through(fs, root, parent, dir);
      assert parent[|dir|] == p[|dir|];
    }
  }

  // ---------------------------------------------------------------- the walk

  datatype Item = Item(dir: Path, depth: nat)

  ghost predicate ItemOk(i: Item, fs: Fs, root: Path, maxDepth: nat) {
    Reached(fs, root, i.dir) && root <= i.dir && |i.dir| == |root| + i.depth && i.depth <= maxDepth
  }

  ghost predicate StackOk(stack: seq<Item>, fs: Fs, root: Path, maxDepth: nat) {
    forall i :: i in stack ==> ItemOk(i, fs, root, maxDepth)
  }

  // `p` lies in or below a directory that is still to be visited.
  ghost predicate Ahead(stack: seq<Item>, p: Path) { exists i :: i in stack && i.dir <= p }

  ghost predicate FoundOk(found: seq<Path>, fs: Fs, root: Path, maxDepth: nat) {
    forall x :: x in found ==> exists p :: Wanted(fs, root, maxDepth, p) && fs.canon(p) == x
  }

  ghost predicate NothingMissed(found: seq<Path>, stack: seq<Item>, fs: Fs, root: Path, maxDepth: nat) {
    forall p {:trigger Wanted(fs, root, maxDepth, p)} ::
      Wanted(fs, root, maxDepth, p) ==> fs.canon(p) in found || Ahead(stack, p)
  }

  // Where a wanted path goes when the top of the stack is visited.
  lemma VisitedNext(fs: Fs, root: Path, maxDepth: nat, top: Item, p: Path)
    requires Wanted(fs, root, maxDepth, p) && ItemOk(top, fs, root, maxDepth) && top.dir <= p
    ensures
      p == top.dir
      || (&& !fs.hasGit(top.dir) && top.depth < maxDepth
          && Enters(fs, top.dir, p[|top.dir|]) && top.dir + [p[|top.dir|]] <= p)
  {
    if p != top.dir { Through(fs, root, p, top.dir); }
  }

  // The number of directories in and below `dir` down to `left` levels, as far as names go.
  function Size(fs: Fs, dir: Path, left: nat): nat
    decreases left, 0
  {
    1 + if left == 0 || fs.entries(dir).None? then 0 else SizeOf(fs, dir, fs.entries(dir).value, left - 1)
  }

  function SizeOf(fs: Fs, dir: Path, names: seq<string>, left: nat): nat
    decreases left, 1, |names|
  {
    if names == [] then 0
    else SizeOf(fs, dir, names[..|names| - 1], left) + Size(fs, dir + [names[|names| - 1]], left)
  }

  function StackSize(fs: Fs, stack: seq<Item>, maxDepth: nat): nat {
    if stack == [] then 0
    else
      var i := stack[|stack| - 1];
      StackSize(fs, stack[..|stack| - 1], maxDepth)
      + Size(fs, i.dir, if i.depth <= maxDepth then maxDepth - i.depth else 0)
  }

  // One of the children of `dir` to visit, among the first `n` names.
  ghost predicate IsChild(i: Item, fs: Fs, dir: Path, depth: nat, names: seq<string>, n: nat)
    requires n <= |names|
  {
    exists k :: 0 <= k < n && i == Item(dir + [names[k]], depth + 1) && Enters(fs, dir, names[k])
  }

  // The stack holds what it held and the children of `dir` to visit, among the first `n` names.
  ghost predicate Pushed(
      stack: seq<Item>, before: seq<Item>, fs: Fs, dir: Path, depth: nat, names: seq<string>, n: nat)
  {
    && n <= |names|
    && (forall i :: i in stack <==> i in before || IsChild(i, fs, dir, depth, names, n))
  }

  // One more name adds no more to the stack than the directories in and below it.
  lemma StackGrows(
      fs: Fs, stack: seq<Item>, before: seq<Item>, dir: Path, depth: nat, names: seq<string>, k: nat,
      maxDepth: nat)
    requires k < |names| && depth < maxDepth
    requires StackSize(fs, stack, maxDepth)
             <= StackSize(fs, before, maxDepth) + SizeOf(fs, dir, names[..k], maxDepth - depth - 1)
    ensures
      var more := stack + [Item(dir + [names[k]], depth + 1)];
      var bound := StackSize(fs, before, maxDepth) + SizeOf(fs, dir, names[..k + 1], maxDepth - depth - 1);
      StackSize(fs, stack, maxDepth) <= bound && StackSize(fs, more, maxDepth) <= bound
  {
    assert names[..k + 1][..k] == names[..k];
    assert (stack + [Item(dir + [names[k]], depth + 1)])[..|stack|] == stack;
  }

  lemma OneMoreName(fs: Fs, dir: Path, depth: nat, names: seq<string>, k: nat, i: Item)
    requires k < |names|
    ensures
      IsChild(i, fs, dir, depth, names, k + 1)
      <==> IsChild(i, fs, dir, depth, names, k)
           || (i == Item(dir + [names[k]], depth + 1) && Enters(fs, dir, names[k]))
  {}

  lemma PushesNext(stack: seq<Item>, before: seq<Item>, fs: Fs, dir: Path, depth: nat, names: seq<string>, k: nat)
    requires k < |names| && Pushed(stack, before, fs, dir, depth, names, k)
    ensures
      Pushed(
        if Enters(fs, dir, names[k]) then stack + [Item(dir + [names[k]], depth + 1)] else stack,
        before, fs, dir, depth, names, k + 1)
  {
    forall i ensures
      IsChild(i, fs, dir, depth, names, k + 1)
      <==> IsChild(i, fs, dir, depth, names, k)
           || (i == Item(dir + [names[k]], depth + 1) && Enters(fs, dir, names[k]))
    {
      OneMoreName(fs, dir, depth, names, k, i);
    }
  }

  // The directories of a listing that may be entered are put on the stack.
  method PushChildren(fs: Fs, dir: Path, depth: nat, names: seq<string>, before: seq<Item>, ghost maxDepth: nat)
      returns (stack: seq<Item>)
    requires fs.entries(dir) == Some(names) && depth < maxDepth
    ensures Pushed(stack, before, fs, dir, depth, names, |names|)
    ensures StackSize(fs, stack, maxDepth)
            <= StackSize(fs, before, maxDepth) + SizeOf(fs, dir, names, maxDepth - depth - 1)
  {
    stack := before;
    for k := 0 to |names|
      invariant Pushed(stack, before, fs, dir, depth, names, k)
      invariant StackSize(fs, stack, maxDepth)
                <= StackSize(fs, before, maxDepth) + SizeOf(fs, dir, names[..k], maxDepth - depth - 1)
    {
      var name := names[k];
      var p := dir + [name];
      StackGrows(fs, stack, before, dir, depth, names, k, maxDepth);
      PushesNext(stack, before, fs, dir, depth, names, k);
      if fs.isDir(p) {
        var skip := name in SKIPPED;
        if !skip {
          stack := stack + [Item(p, depth + 1)];
        }
      }
    }
    assert names[..|names|] == names;
  }

  lemma PushedOk(
      stack: seq<Item>, before: seq<Item>, fs: Fs, root: Path, maxDepth: nat, top: Item, names: seq<string>)
    requires Pushed(stack, before, fs, top.dir, top.depth, names, |names|)
    requires fs.entries(top.dir) == Some(names) && top.depth < maxDepth && !fs.hasGit(top.dir)
    requires ItemOk(top, fs, root, maxDepth) && StackOk(before, fs, root, maxDepth)
    ensures StackOk(stack, fs, root, maxDepth)
  {
    forall i | i in stack ensures ItemOk(i, fs, root, maxDepth) {
      if i !in before {
        assert IsChild(i, fs, top.dir, top.depth, names, |names|);
        var k :| 0 <= k < |names| && i == Item(top.dir + [names[k]], top.depth + 1) && Enters(fs, top.dir, names[k]);
        assert i.dir[..|i.dir| - 1] == top.dir;
      }
    }
  }

  lemma StillNothingMissed(
      found: seq<Path>, stack: seq<Item>, before: seq<Item>, fs: Fs, root: Path, maxDepth: nat, top: Item,
      names: seq<string>)
    requires NothingMissed(found, before + [top], fs, root, maxDepth)
    requires Pushed(stack, before, fs, top.dir, top.depth, names, |names|)
    requires fs.entries(top.dir) == Some(names) && !fs.hasGit(top.dir) && ItemOk(top, fs, root, maxDepth)
    ensures NothingMissed(found, stack, fs, root, maxDepth)
  {
    forall p | Wanted(fs, root, maxDepth, p) ensures fs.canon(p) in found || Ahead(stack, p) {
      if fs.canon(p) !in found {
        var i :| i in before + [top] && i.dir <= p;
        if i in before {
          assert i in stack;
        } else {
          VisitedNext(fs, root, maxDepth, top, p);
          var k :| 0 <= k < |names| && names[k] == p[|top.dir|];
          var child := Item(top.dir + [names[k]], top.depth + 1);
          assert IsChild(child, fs, top.dir, top.depth, names, |names|);
          assert child in stack;
        }
      }
    }
  }

  // A directory with .git, at the greatest depth or unreadable has nothing below it to find.
  lemma NothingBelow(
      found: seq<Path>, more: seq<Path>, before: seq<Item>, fs: Fs, root: Path, maxDepth: nat, top: Item)
    requires NothingMissed(found, before + [top], fs, root, maxDepth) && ItemOk(top, fs, root, maxDepth)
    requires fs.hasGit(top.dir) || top.depth >= maxDepth || fs.entries(top.dir).None?
    requires more == if fs.hasGit(top.dir) then found + [fs.canon(top.dir)] else found
    ensures NothingMissed(more, before, fs, root, maxDepth)
  {
    forall p | Wanted(fs, root, maxDepth, p) ensures fs.canon(p) in more || Ahead(before, p) {
      if fs.canon(p) !in more {
        var i :| i in before + [top] && i.dir <= p;
        if i !in before { VisitedNext(fs, root, maxDepth, top, p); }
      }
    }
  }

  // The walk with an explicit stack.
  method DiscoverWalk(fs: Fs, root: Path, maxDepth: nat) returns (found: seq<Path>)
    ensures IsResult(found, fs, root, maxDepth)
  {
    found := [];
    var stack := [Item(root, 0)];
    EverythingIsAhead(fs, root, maxDepth);
    while stack != []
      invariant StackOk(stack, fs, root, maxDepth)
      invariant FoundOk(found, fs, root, maxDepth)
      invariant NothingMissed(found, stack, fs, root, maxDepth)
      decreases StackSize(fs, stack, maxDepth)
    {
      var top, before := stack[|stack| - 1], stack[..|stack| - 1];
      assert stack == before + [top];
      assert top in stack;
      stack := before;
      if fs.hasGit(top.dir) {
        NothingBelow(found, found + [fs.canon(top.dir)], before, fs, root, maxDepth, top);
        assert Wanted(fs, root, maxDepth, top.dir);
        found := found + [fs.canon(top.dir)];
        continue;
      }
      if top.depth >= maxDepth || fs.entries(top.dir).None? {
        NothingBelow(found, found, before, fs, root, maxDepth, top);
        continue;
      }
      var names := fs.entries(top.dir).value;
      stack := PushChildren(fs, top.dir, top.depth, names, before, maxDepth);
      PushedOk(stack, before, fs, root, maxDepth, top, names);
      StillNothingMissed(found, stack, before, fs, root, maxDepth, top, names);
    }
    AllFound(found, fs, root, maxDepth);
    PathsAreOrdered();
    SortedOnceIs(found, ByPath());
    found := SortedOnce(found, ByPath());
  }

  lemma EverythingIsAhead(fs: Fs, root: Path, maxDepth: nat)
    ensures NothingMissed([], [Item(root, 0)], fs, root, maxDepth)
  {
    forall p | Wanted(fs, root, maxDepth, p) ensures Ahead([Item(root, 0)], p) {
      RootIsAncestor(fs, root, p);
      assert Item(root, 0) in [Item(root, 0)];
    }
  }

  lemma AllFound(found: seq<Path>, fs: Fs, root: Path, maxDepth: nat)
    requires FoundOk(found, fs, root, maxDepth) && NothingMissed(found, [], fs, root, maxDepth)
    ensures forall x :: x in found <==> exists p :: Wanted(fs, root, maxDepth, p) && fs.canon(p) == x
  {}

  // ---------------------------------------------------------------- order

  // Paths compare component by component.
  predicate PathLe(a: Path, b: Path) {
    a == [] || (b != [] && (if a[0] == b[0] then PathLe(a[1..], b[1..]) else TextLe(a[0], b[0])))
  }

  lemma {:induction false} PathOrder(a: Path, b: Path, c: Path)
    ensures PathLe(a, b) || PathLe(b, a)
    ensures PathLe(a, b) && PathLe(b, c) ==> PathLe(a, c)
    ensures PathLe(a, b) && PathLe(b, a) ==> a == b
  {
    if a != [] && b != [] {
      PathOrder(a[1..], b[1..], if c == [] then [] else c[1..]);
      assert a == [a[0]] + a[1..] && b == [b[0]] + b[1..];
      TextOrder(a[0], b[0], if c == [] then [] else c[0]);
      if c != [] { TextOrder(b[0], c[0], a[0]); TextOrder(a[0], c[0], b[0]); }
    }
  }

  // The first component that differs decides.
  ghost predicate Before(a: Path, b: Path, k: nat) {
    k < |a| && k < |b| && a[..k] == b[..k] && a[k] != b[k] && TextLe(a[k], b[k])
  }

  lemma BeforeInTails(a: Path, b: Path, k: nat)
    requires a != [] && b != [] && a[0] == b[0]
    ensures Before(a[1..], b[1..], k) <==> Before(a, b, k + 1)
  {
    if k < |a| - 1 && k < |b| - 1 {
      assert a[..k + 1] == [a[0]] + a[1..][..k] && b[..k + 1] == [b[0]] + b[1..][..k];
      assert a[1..][..k] == a[..k + 1][1..] && b[1..][..k] == b[..k + 1][1..];
    }
  }

  // A path comes before those that go on from it.
  lemma {:induction false} PathsCompare(a: Path, b: Path)
    ensures PathLe(a, b) <==> a <= b || exists k: nat :: Before(a, b, k)
  {
    if a != [] && b != [] {
      var c, d := a[1..], b[1..];
      PathsCompare(c, d);
      assert a == [a[0]] + c && b == [b[0]] + d;
      if a[0] == b[0] {
        forall k: nat ensures Before(c, d, k) <==> Before(a, b, k + 1) { BeforeInTails(a, b, k); }
        assert !Before(a, b, 0);
        forall k: nat | Before(a, b, k) ensures Before(c, d, k - 1) { assert Before(a, b, k - 1 + 1); }
      } else {
        TextOrder(a[0], b[0], b[0]);
        if TextLe(a[0], b[0]) { assert Before(a, b, 0); }
        forall k: nat | Before(a, b, k) ensures k == 0 { SameStart(a, b, k); }
      }
    }
  }

  function ByPath(): (Path, Path) -> bool { (a, b) => PathLe(a, b) }

  lemma PathsAreOrdered()
    ensures TotalOrder(ByPath())
  {
    forall a, b, c
      ensures ByPath()(a, b) || ByPath()(b, a)
      ensures ByPath()(a, b) && ByPath()(b, c) ==> ByPath()(a, c)
      ensures ByPath()(a, b) && ByPath()(b, a) ==> a == b
    {
      PathOrder(a, b, c);
    }
  }
}
