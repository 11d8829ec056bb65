// The order of the lanes (crates/repomon-core/src/lane.rs:531-549): repositories by their
// liveliest lane, in each the main worktree first and then the most recently active.
module LaneOrder {
  import opened Prelude
  import opened Sorting

  datatype Lane = Lane(repo: int, isMain: bool, lastActivity: int, id: int)

  // The most recent activity of a repository's lanes.
  function Activity(lanes: seq<Lane>, repo: int): Option<int> {
    if lanes == [] then None
    else
      var before, l := Activity(lanes[..|lanes| - 1], repo), lanes[|lanes| - 1];
      if l.repo != repo then before
      else if before.Some? && before.value >= l.lastActivity then before
      else Some(l.lastActivity)
  }

  lemma {:induction false} ActivityIsTheMaximum(lanes: seq<Lane>, repo: int)
    ensures Activity(lanes, repo).None? <==> forall l :: l in lanes ==> l.repo != repo
    ensures Activity(lanes, repo).Some? ==>
              && (exists l :: l in lanes && l.repo == repo && l.lastActivity == Activity(lanes, repo).value)
              && (forall l :: l in lanes && l.repo == repo ==> l.lastActivity <= Activity(lanes, repo).value)
  {
    if lanes != [] {
      var rest, l := lanes[..|lanes| - 1], lanes[|lanes| - 1];
      ActivityIsTheMaximum(rest, repo);
      assert lanes == rest + [l];
      if Activity(rest, repo).Some? {
        var k :| k in rest && k.repo == repo && k.lastActivity == Activity(rest, repo).value;
        assert k in lanes;
      }
      assert l in lanes;
    }
  }

  // Where a lane's repository stands: by its activity, when it has any lanes.
  function Standing(active: map<int, int>, l: Lane): int { if l.repo in active then active[l.repo] else 0 }

  predicate Precedes(active: map<int, int>, a: Lane, b: Lane) {
    if Standing(active, a) != Standing(active, b) then Standing(active, a) > Standing(active, b)
    else if a.repo != b.repo then a.repo < b.repo
    else if a.isMain != b.isMain then a.isMain
    else a.lastActivity >= b.lastActivity
  }

  function Order(active: map<int, int>): (Lane, Lane) -> bool { (a, b) => Precedes(active, a, b) }

  lemma OrderIsTotal(active: map<int, int>)
    ensures TotalPreorder(Order(active))
  {}

  // The most recent activity of every repository that has lanes.
  ghost predicate Activities(active: map<int, int>, lanes: seq<Lane>) {
    forall repo {:trigger Activity(lanes, repo)} ::
      Activity(lanes, repo) == if repo in active then Some(active[repo]) else None
  }

  function ActivityMap(lanes: seq<Lane>): map<int, int> {
    map r | r in (set l | l in lanes :: l.repo) && Activity(lanes, r).Some? :: Activity(lanes, r).value
  }

  lemma ActivityMapIs(lanes: seq<Lane>)
    ensures Activities(ActivityMap(lanes), lanes)
  {
    forall repo ensures Activity(lanes, repo).Some? ==> repo in (set l | l in lanes :: l.repo) {
      ActivityIsTheMaximum(lanes, repo);
    }
  }

  lemma OnlyOneActivity(a: map<int, int>, b: map<int, int>, lanes: seq<Lane>)
    requires Activities(a, lanes) && Activities(b, lanes)
    ensures a == b
  {
    forall r ensures (r in a <==> r in b) && (r in a ==> a[r] == b[r]) {
      assert Activity(lanes, r) == if r in a then Some(a[r]) else None;
      assert Activity(lanes, r) == if r in b then Some(b[r]) else None;
    }
  }

  // What the lanes are sorted to.
  function Sorted(lanes: seq<Lane>): seq<Lane> { SortWith(lanes, Order(ActivityMap(lanes))) }

  method SortLanes(lanes: seq<Lane>) returns (sorted: seq<Lane>)
    ensures sorted == Sorted(lanes)
  {
    var repoActivity: map<int, int> := map[];
    for i := 0 to |lanes|
      invariant Activities(repoActivity, lanes[..i])
    {
      var l := lanes[i];
      assert lanes[..i + 1][..i] == lanes[..i];
      assert Activity(lanes[..i], l.repo) == if l.repo in repoActivity then Some(repoActivity[l.repo]) else None;
      ghost var before := repoActivity;
      if l.repo !in repoActivity || l.lastActivity > repoActivity[l.repo] {
        repoActivity := repoActivity[l.repo := l.lastActivity];
      }
      forall repo ensures Activity(lanes[..i + 1], repo)
                          == if repo in repoActivity then Some(repoActivity[repo]) else None {
        assert Activity(lanes[..i], repo) == if repo in before then Some(before[repo]) else None;
      }
    }
    assert lanes[..|lanes|] == lanes;
    ActivityMapIs(lanes);
    OnlyOneActivity(repoActivity, ActivityMap(lanes), lanes);
    sorted := SortWith(lanes, Order(repoActivity));
  }

  // Of two sorted lanes the first is its repository's main worktree, or the more recently active,
  // or of a repository that was active no less recently than the second lane.
  ghost predicate InOrder(lanes: seq<Lane>, a: Lane, b: Lane) {
    && (a.repo == b.repo && b.isMain ==> a.isMain)
    && (a.repo == b.repo && a.isMain == b.isMain ==> a.lastActivity >= b.lastActivity)
    && (exists l :: l in lanes && l.repo == a.repo && l.lastActivity >= b.lastActivity)
    && (a.repo > b.repo ==> exists l :: l in lanes && l.repo == a.repo && IsLivelier(lanes, l, b.repo))
  }

  // `l` was active later than every lane of the repository.
  ghost predicate IsLivelier(lanes: seq<Lane>, l: Lane, repo: int) {
    forall m :: m in lanes && m.repo == repo ==> m.lastActivity < l.lastActivity
  }

  // The lanes are the same, every repository's stand together with its main worktrees first and
  // then by activity, and no repository precedes one that was active after all of its own lanes.
  lemma LanesStandByRepository(lanes: seq<Lane>)
    ensures multiset(Sorted(lanes)) == multiset(lanes)
    ensures forall i, j :: 0 <= i < j < |Sorted(lanes)| ==> InOrder(lanes, Sorted(lanes)[i], Sorted(lanes)[j])
    ensures forall i, j, k ::
              0 <= i < j < k < |Sorted(lanes)| && Sorted(lanes)[i].repo == Sorted(lanes)[k].repo ==>
                Sorted(lanes)[j].repo == Sorted(lanes)[i].repo
  {
    var active, s := ActivityMap(lanes), Sorted(lanes);
    ActivityMapIs(lanes);
    SortKeeps(lanes, Order(active));
    OrderIsTotal(active);
    SortSorts(lanes, Order(active));
    SameElements(s, lanes);
    forall i, j | 0 <= i < j < |s| ensures InOrder(lanes, s[i], s[j]) {
      assert Order(active)(s[i], s[j]);
      LivelierFirst(lanes, active, s[i], s[j]);
      if s[i].repo > s[j].repo { SmallerFirst(lanes, active, s[i], s[j]); }
    }
    forall i, j, k | 0 <= i < j < k < |s| && s[i].repo == s[k].repo ensures s[j].repo == s[i].repo {
      assert Order(active)(s[i], s[j]) && Order(active)(s[j], s[k]);
    }
  }

  // A repository with the greater number comes first only if it is livelier.
  lemma SmallerFirst(lanes: seq<Lane>, active: map<int, int>, a: Lane, b: Lane)
    requires Activities(active, lanes) && a in lanes && b in lanes && Precedes(active, a, b) && a.repo > b.repo
    ensures exists l :: l in lanes && l.repo == a.repo && IsLivelier(lanes, l, b.repo)
  {
    ActivityIsTheMaximum(lanes, a.repo);
    ActivityIsTheMaximum(lanes, b.repo);
    assert Activity(lanes, a.repo).Some? && Activity(lanes, b.repo).Some?;
    var l :| l in lanes && l.repo == a.repo && l.lastActivity == Activity(lanes, a.repo).value;
    assert IsLivelier(lanes, l, b.repo);
  }

  lemma LivelierFirst(lanes: seq<Lane>, active: map<int, int>, a: Lane, b: Lane)
    requires Activities(active, lanes) && a in lanes && b in lanes && Precedes(active, a, b)
    ensures exists l :: l in lanes && l.repo == a.repo && l.lastActivity >= b.lastActivity
  {
    ActivityIsTheMaximum(lanes, a.repo);
    ActivityIsTheMaximum(lanes, b.repo);
    assert Activity(lanes, a.repo).Some? && Activity(lanes, b.repo).Some?;
    var l :| l in lanes && l.repo == a.repo && l.lastActivity == Activity(lanes, a.repo).value;
  }
}
