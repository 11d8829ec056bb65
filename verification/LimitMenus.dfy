// The usage limit's menu: how it is read from the lines of a pane, and what the keys typed for it
// confirm (crates/repomon-core/src/agent/limit.rs:81-126).
module LimitMenus {
  import opened Prelude
  import opened AutoContinue

  // A line that looks like an option: whether the cursor is on it, the number printed before it,
  // and whether its text offers to wait.
  datatype Row = Row(cursor: bool, number: Option<nat>, waits: bool)

  // The lines of a pane; None for those that are no options.
  type Pane = seq<Option<Row>>

  predicate Waits(pane: Pane, i: nat)
    requires i < |pane|
  {
    pane[i].Some? && pane[i].value.waits
  }

  // Lines `start` to `end` are options, no more can be added, and the first of the pane that
  // offers to wait is at `anchor` among them.
  ghost predicate IsBlock(pane: Pane, start: nat, anchor: nat, end: nat) {
    && start <= anchor < end <= |pane|
    && Waits(pane, anchor) && (forall k :: 0 <= k < anchor ==> !Waits(pane, k))
    && (forall k :: start <= k < end ==> pane[k].Some?)
    && (start > 0 ==> pane[start - 1].None?) && (end < |pane| ==> pane[end].None?)
  }

  // The first of the rows that the cursor is on.
  ghost predicate FirstCursor(pane: Pane, start: nat, end: nat, selected: Option<nat>)
    requires start <= end <= |pane|
  {
    match selected
    case Some(i) =>
      && start + i < end && pane[start + i].Some? && pane[start + i].value.cursor
      && (forall k :: start <= k < start + i ==> pane[k].None? || !pane[k].value.cursor)
    case None => forall k :: start <= k < end ==> pane[k].None? || !pane[k].value.cursor
  }

  ghost predicate IsMenu(menu: LimitMenu, pane: Pane, start: nat, anchor: nat, end: nat) {
    && IsBlock(pane, start, anchor, end)
    && FirstCursor(pane, start, end, menu.selected)
    && menu.waitIdx == anchor - start && menu.waitNumber == pane[anchor].value.number
  }

  // The menu is read from its block; there is none exactly when no line offers to wait.
  method ParseMenu(pane: Pane) returns (menu: Option<LimitMenu>, ghost start: nat, ghost anchor: nat, ghost end: nat)
    ensures menu.None? <==> forall k :: 0 <= k < |pane| ==> !Waits(pane, k)
    ensures menu.Some? ==> IsMenu(menu.value, pane, start, anchor, end)
  {
    start, anchor, end := 0, 0, 0;
    var a := 0;
    while a < |pane| && !Waits(pane, a)
      invariant 0 <= a <= |pane| && forall k :: 0 <= k < a ==> !Waits(pane, k)
    {
      a := a + 1;
    }
    if a == |pane| { return None, 0, 0, 0; }
    var s := a;
    while s > 0 && pane[s - 1].Some?
      invariant 0 <= s <= a && forall k :: s <= k <= a ==> pane[k].Some?
    {
      s := s - 1;
    }
    var e := a + 1;
    while e < |pane| && pane[e].Some?
      invariant a < e <= |pane| && forall k :: s <= k < e ==> pane[k].Some?
    {
      e := e + 1;
    }
    var selected := Cursor(pane, s, e);
    start, anchor, end := s, a, e;
    menu := Some(LimitMenu(selected, a - s, pane[a].value.number));
  }

  method Cursor(pane: Pane, start: nat, end: nat) returns (selected: Option<nat>)
    requires start <= end <= |pane| && forall k :: start <= k < end ==> pane[k].Some?
    ensures FirstCursor(pane, start, end, selected)
  {
    for i := 0 to end - start
      invariant forall k :: start <= k < start + i ==> !pane[k].value.cursor
    {
      if pane[start + i].value.cursor { return Some(i); }
    }
    selected := None;
  }

  // ---------------------------------------------------------------- what the keys do

  // The first of the rows with that number.
  function Numbered(rows: seq<Row>, n: nat): Option<nat> {
    if rows == [] then None
    else if rows[0].number == Some(n) then Some(0)
    else match Numbered(rows[1..], n) case Some(i) => Some(i + 1) case None => None
  }

  lemma {:induction false} NumberedIsFirst(rows: seq<Row>, n: nat, i: nat)
    requires i < |rows| && rows[i].number == Some(n)
    ensures Numbered(rows, n).Some? && Numbered(rows, n).value <= i
    ensures Numbered(rows, n) == Some(i) <==> forall k :: 0 <= k < i ==> rows[k].number != Some(n)
  {
    if i > 0 && rows[0].number != Some(n) {
      NumberedIsFirst(rows[1..], n, i - 1);
      assert forall k :: 0 <= k < i - 1 ==> rows[1..][k] == rows[k + 1];
      if forall k :: 0 <= k < i - 1 ==> rows[1..][k].number != Some(n) {
        forall k | 0 <= k < i ensures rows[k].number != Some(n) {
          if k > 0 { assert rows[1..][k - 1] == rows[k]; }
        }
      }
      if forall k :: 0 <= k < i ==> rows[k].number != Some(n) {
        forall k | 0 <= k < i - 1 ensures rows[1..][k].number != Some(n) { assert rows[k + 1].number != Some(n); }
      }
    }
  }

  // Where the cursor of a menu is after some keys: arrows move it, and a number puts it on the row
  // with that number.
  function Moved(rows: seq<Row>, cursor: int, keys: seq<Key>): int {
    if keys == [] then cursor
    else
      var at := Moved(rows, cursor, keys[..|keys| - 1]);
      match keys[|keys| - 1]
      case Down => at + 1
      case Up => at - 1
      case Enter => at
      case Number(n) => if Numbered(rows, n).Some? then Numbered(rows, n).value else at
  }

  lemma {:induction false} MovedBy(rows: seq<Row>, cursor: int, k: Key, n: nat)
    requires k == Down || k == Up
    ensures Moved(rows, cursor, Repeat(k, n)) == if k == Down then cursor + n else cursor - n
  {
    if n > 0 {
      assert Repeat(k, n)[..n - 1] == Repeat(k, n - 1);
      MovedBy(rows, cursor, k, n - 1);
    }
  }

  // The row that the keys confirm, when Enter is the last of them and comes only there.
  ghost predicate Confirms(rows: seq<Row>, cursor: int, keys: seq<Key>, row: int) {
    && keys != [] && keys[|keys| - 1] == Enter && Enter !in keys[..|keys| - 1]
    && Moved(rows, cursor, keys[..|keys| - 1]) == row
  }

  function Rows(pane: Pane, start: nat, end: nat): seq<Row>
    requires start <= end <= |pane| && forall k :: start <= k < end ==> pane[k].Some?
  {
    seq(end - start, i requires 0 <= i < end - start => pane[start + i].value)
  }

  // The menu is good for a cursor on row `at` when the cursor was read to be there, or, if none was
  // read, when no row before it has the same number as the wait option, or, if that has no number,
  // when the cursor is on it already.
  ghost predicate FindsTheOption(menu: LimitMenu, rows: seq<Row>, at: int)
    requires menu.waitIdx < |rows|
  {
    if menu.selected.Some? then at == menu.selected.value
    else if menu.waitNumber.Some? then forall k :: 0 <= k < menu.waitIdx ==> rows[k].number != menu.waitNumber
    else at == menu.waitIdx
  }

  // The keys typed for a menu, with the cursor really on row `at`, confirm the option to wait
  // exactly under that condition.
  lemma KeysConfirmTheWaitOption(menu: LimitMenu, pane: Pane, start: nat, anchor: nat, end: nat, at: int)
    requires IsMenu(menu, pane, start, anchor, end)
    ensures
      var rows := Rows(pane, start, end);
      && menu.waitIdx < |rows| && rows[menu.waitIdx].waits
      && (Confirms(rows, at, MenuSelectKeys(menu), menu.waitIdx) <==> FindsTheOption(menu, rows, at))
  {
    var rows, keys := Rows(pane, start, end), MenuSelectKeys(menu);
    match menu.selected
    case Some(cur) => ArrowsConfirm(menu, rows, at);
    case None =>
      if menu.waitNumber.Some? {
        assert keys[..1] == [Number(menu.waitNumber.value)] && keys[..1][..0] == [];
        NumberedIsFirst(rows, menu.waitNumber.value, menu.waitIdx);
      }
  }

  lemma ArrowsConfirm(menu: LimitMenu, rows: seq<Row>, at: int)
    requires menu.selected.Some?
    ensures Confirms(rows, at, MenuSelectKeys(menu), at + menu.waitIdx - menu.selected.value)
  {
    var keys, cur := MenuSelectKeys(menu), menu.selected.value;
    if menu.waitIdx > cur {
      assert keys[..|keys| - 1] == Repeat(Down, menu.waitIdx - cur);
      MovedBy(rows, at, Down, menu.waitIdx - cur);
    } else {
      assert keys[..|keys| - 1] == Repeat(Up, cur - menu.waitIdx);
      MovedBy(rows, at, Up, cur - menu.waitIdx);
    }
  }
}
