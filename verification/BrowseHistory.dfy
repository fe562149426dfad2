/** The browse history of gd: an array of 64 places that refines a history without a bound. */
module BrowseHistory {
  import opened Options

  const UI_HISTORY_MAX := 64

  datatype View = View(cursor: int, column: int, top: int, hscroll: int, debugLines: bool)
  datatype Location =
    | InSource(path: string, view: View)
    | InAssembly(address: string, function_: string, selected: int, top: int)

  /** The same place, to be brought up to date rather than entered again. */
  predicate SamePlace(a: Location, b: Location) {
    (a.InSource? && b.InSource? && a.path == b.path && a.view.cursor == b.view.cursor)
    || (a.InAssembly? && b.InAssembly? && a.address == b.address)
  }

  /** A place already entered, with what changes about it on a second visit. */
  function Refreshed(a: Location, b: Location): Location
    requires SamePlace(a, b)
  {
    if a.InSource? then b else a.(selected := b.selected, top := b.top)
  }

  /** A history without a bound: all places, and the current one. */
  datatype History = History(places: seq<Location>, at: int)

  predicate Current(h: History) {
    0 <= h.at < |h.places|
  }

  predicate Enterable(loc: Location) {
    if loc.InSource? then loc.path != "" else loc.address != ""
  }

  /** A new place behind the current one; what is ahead of that is dropped. */
  function Pushed(h: History, loc: Location): (r: History)
    requires -1 <= h.at < |h.places|
    ensures Current(r) && r.places[r.at] == loc
  {
    History(h.places[..h.at + 1] + [loc], h.at + 1)
  }

  function Replaced(h: History, loc: Location): (r: History)
    requires Current(h)
    ensures Current(r) && r.places[r.at] == loc && |r.places| == |h.places|
  {
    h.(places := h.places[h.at := loc])
  }

  /** Entering a place: brings the current one up to date if it is the same. */
  function Enter(h: History, loc: Location): (r: History)
    requires -1 <= h.at < |h.places|
    ensures -1 <= r.at < |r.places|
  {
    if !Enterable(loc) then h
    else if Current(h) && SamePlace(h.places[h.at], loc) then Replaced(h, Refreshed(h.places[h.at], loc))
    else Pushed(h, loc)
  }

  // ---------------------------------------------------------------- no more than 64 places

  /** The oldest place goes when there are too many. */
  function Trimmed(h: History): (r: History)
  {
    if |h.places| > UI_HISTORY_MAX then History(h.places[1..], h.at - 1) else h
  }

  function EnterBounded(h: History, loc: Location): (r: History)
    requires -1 <= h.at < |h.places| <= UI_HISTORY_MAX
    ensures -1 <= r.at < |r.places| <= UI_HISTORY_MAX
  {
    Trimmed(Enter(h, loc))
  }

  /** The bounded history is the newest part of the full one, with the same current place. */
  predicate Window(b: History, full: History) {
    && |b.places| <= |full.places| && |b.places| <= UI_HISTORY_MAX
    && b.places == full.places[|full.places| - |b.places|..]
    && b.at == full.at - (|full.places| - |b.places|)
    && -1 <= b.at < |b.places| && (b.at == -1 ==> b.places == [] && full.places == [])
  }

  lemma SameCurrent(b: History, full: History)
    requires Window(b, full)
    ensures -1 <= b.at < |b.places| <= UI_HISTORY_MAX && -1 <= full.at < |full.places|
    ensures Current(b) <==> Current(full)
    ensures Current(b) ==> b.places[b.at] == full.places[full.at]
  {
    SameBounds(b, full);
    if Current(b) {
      var dropped := |full.places| - |b.places|;
      assert b.places == full.places[dropped..];
      hide Window;
      SuffixIndex(full.places, dropped, b.at);
    }
  }

  lemma SameBounds(b: History, full: History)
    requires Window(b, full)
    ensures -1 <= b.at < |b.places| <= UI_HISTORY_MAX && -1 <= full.at < |full.places|
    ensures full.at == b.at + (|full.places| - |b.places|) && (b.at == -1 ==> full.at == -1)
  {
  }

  lemma SuffixIndex(long: seq<Location>, dropped: nat, i: nat)
    requires dropped + i < |long|
    ensures long[dropped..][i] == long[dropped + i]
  {
  }

  lemma ReplaceKeepsWindow(b: History, full: History, now: Location)
    requires Window(b, full) && Current(b) && Current(full)
    ensures Window(Trimmed(Replaced(b, now)), Replaced(full, now))
  {
    var dropped := |full.places| - |b.places|;
    assert full.places[full.at := now][dropped..] == full.places[dropped..][b.at := now];
  }

  lemma PushKeepsWindow(b: History, full: History, loc: Location)
    requires Window(b, full) && -1 <= full.at < |full.places|
    ensures Window(Trimmed(Pushed(b, loc)), Pushed(full, loc))
  {
    PushMatches(b.places, full.places, b.at, loc);
    SuffixIsWindow(Pushed(b, loc), Pushed(full, loc), |full.places| - |b.places|);
  }

  lemma SuffixIsWindow(e: History, f: History, dropped: nat)
    requires dropped <= |f.places| && e.places == f.places[dropped..] && e.at == f.at - dropped
    requires 0 <= e.at < |e.places| <= UI_HISTORY_MAX + 1 && (|e.places| > UI_HISTORY_MAX ==> e.at >= 1)
    ensures Window(Trimmed(e), f)
  {
    if |e.places| > UI_HISTORY_MAX {
      assert f.places[dropped..][1..] == f.places[dropped + 1..];
    }
  }

  lemma PushMatches(short: seq<Location>, long: seq<Location>, at: int, loc: Location)
    requires |short| <= |long| && short == long[|long| - |short|..] && -1 <= at < |short|
    ensures short[..at + 1] + [loc] == (long[..|long| - |short| + at + 1] + [loc])[|long| - |short|..]
  {
    assert short[..at + 1] == long[|long| - |short|..|long| - |short| + at + 1];
  }

  lemma EnterKeepsWindow(b: History, full: History, loc: Location)
    requires Window(b, full)
    ensures -1 <= full.at < |full.places| && Window(EnterBounded(b, loc), Enter(full, loc))
  {
    hide SamePlace, Refreshed, Enterable, Pushed, Replaced;
    SameCurrent(b, full);
    if !Enterable(loc) {
      assert Trimmed(b) == b;
    } else if Current(b) && SamePlace(b.places[b.at], loc) {
      ReplaceKeepsWindow(b, full, Refreshed(b.places[b.at], loc));
    } else {
      PushKeepsWindow(b, full, loc);
    }
  }

  class SourceHistory {
    const items: array<Location>
    var count: nat
    var index: int
    ghost var full: History

    ghost function Shown(): History
      reads this`count, this`index, items
      requires count <= items.Length
    {
      History(items[..count], index)
    }

    /** The array holds the newest places of the full history, and the same current one. */
    ghost predicate Valid()
      reads this, items
    {
      items.Length == UI_HISTORY_MAX && count <= UI_HISTORY_MAX && Window(Shown(), full)
    }

    constructor (nowhere: Location)
      ensures Valid() && full == History([], -1) && count == 0 && fresh(items)
    {
      items := new Location[UI_HISTORY_MAX](_ => nowhere);
      count, index, full := 0, -1, History([], -1);
    }

    /** history_push, for a place in the source, and history_push_assembly */
    method Push(loc: Location)
      requires Valid()
      modifies this, items
      ensures Valid() && Shown() == EnterBounded(old(Shown()), loc) && full == Enter(old(full), loc)
      ensures Shown() == Stepped(old(Shown()), Entered(loc), true)
    {
      EnterKeepsWindow(Shown(), full, loc);
      SameCurrent(Shown(), full);
      hide Window, Enter, EnterBounded;
      EnterShown(loc);
      full := Enter(full, loc);
    }

    /** What it does to the array. */
    method EnterShown(loc: Location)
      requires items.Length == UI_HISTORY_MAX && -1 <= index < count <= UI_HISTORY_MAX
      modifies this`count, this`index, items
      ensures count <= UI_HISTORY_MAX && Shown() == EnterBounded(old(Shown()), loc)
    {
      hide SamePlace, Refreshed, Enterable, Pushed, Replaced;
      if !Enterable(loc) { return; }
      assert 0 <= index < count ==> Shown().places[Shown().at] == items[index];
      if 0 <= index < count && SamePlace(items[index], loc) {
        Refresh(Refreshed(items[index], loc));
      } else {
        Append(loc);
      }
    }

    /** Brings the current place up to date. */
    method Refresh(now: Location)
      requires items.Length == UI_HISTORY_MAX && 0 <= index < count <= UI_HISTORY_MAX
      modifies items
      ensures Shown() == Trimmed(Replaced(old(Shown()), now))
    {
      items[index] := now;
      assert items[..count] == old(items[..count])[index := now];
    }

    /** The end of both: a place behind the current one, the oldest dropped when there is no room. */
    method Append(loc: Location)
      requires items.Length == UI_HISTORY_MAX && -1 <= index < count <= UI_HISTORY_MAX
      modifies this`count, this`index, items
      ensures count <= UI_HISTORY_MAX && Shown() == Trimmed(Pushed(old(Shown()), loc))
    {
      ghost var was, at := items[..count], index;
      ghost var places := was[..at + 1] + [loc];
      count := index + 1;
      if count >= UI_HISTORY_MAX {
        ShiftDown();
        count := UI_HISTORY_MAX - 1;
        index := index - 1;
        assert items[..count] + [loc] == places[1..];
      } else {
        assert items[..count] + [loc] == places;
      }
      PutAtEnd(loc);
    }

    method PutAtEnd(loc: Location)
      requires items.Length == UI_HISTORY_MAX && count < UI_HISTORY_MAX
      modifies this`count, this`index, items
      ensures count == old(count) + 1 && Shown() == History(old(items[..count]) + [loc], old(count))
    {
      items[count] := loc;
      count := count + 1;
      index := count - 1;
      assert items[..count] == old(items[..count]) + [loc];
    }

    /** memmove of all items but the first. */
    method ShiftDown()
      requires items.Length == UI_HISTORY_MAX
      modifies items
      ensures items[..UI_HISTORY_MAX - 1] == old(items[1..])
    {
      var i := 1;
      while i < UI_HISTORY_MAX
        invariant 1 <= i <= UI_HISTORY_MAX
        invariant forall j :: 1 <= j < i ==> items[j - 1] == old(items[j])
        invariant forall j :: i <= j < UI_HISTORY_MAX ==> items[j] == old(items[j])
      {
        items[i - 1] := items[i];
        i := i + 1;
      }
    }

    /** history_move; whether the place can be loaded is not for the history to know. */
    method Move(direction: int, loads: bool) returns (to: Option<Location>)
      requires Valid()
      modifies this`index, this`full
      ensures Valid()
      ensures to.Some? <==> 0 <= old(index) + direction < count && loads
      ensures to.None? ==> index == old(index) && full == old(full)
      ensures loads ==> Shown() == Stepped(old(Shown()), Moved(direction), true)
      ensures to.Some? ==>
                && full == old(full).(at := old(full).at + direction) && Current(full)
                && to.value == full.places[full.at]
    {
      var target := index + direction;
      if target < 0 || target >= count || !loads { return None; }
      to := Some(items[target]);
      index := target;
      full := full.(at := full.at + direction);
    }
  }

  // ---------------------------------------------------------------- whole sessions

  datatype Step = Entered(loc: Location) | Moved(direction: int)

  predicate Moves(h: History, direction: int) {
    0 <= h.at + direction < |h.places|
  }

  function Stepped(h: History, step: Step, bounded: bool): (r: History)
    requires -1 <= h.at < |h.places| && (bounded ==> |h.places| <= UI_HISTORY_MAX)
    ensures -1 <= r.at < |r.places| && (bounded ==> |r.places| <= UI_HISTORY_MAX)
  {
    match step
    case Entered(loc) => if bounded then EnterBounded(h, loc) else Enter(h, loc)
    case Moved(d) => if Moves(h, d) then h.(at := h.at + d) else h
  }

  function Walk(h: History, steps: seq<Step>, bounded: bool): History
    requires -1 <= h.at < |h.places| && (bounded ==> |h.places| <= UI_HISTORY_MAX)
    decreases |steps|
  {
    if steps == [] then h else Walk(Stepped(h, steps[0], bounded), steps[1..], bounded)
  }

  /** No move goes back beyond what the bounded history still holds. */
  predicate StaysInside(b: History, full: History, steps: seq<Step>)
    requires -1 <= b.at < |b.places| <= UI_HISTORY_MAX && -1 <= full.at < |full.places|
    decreases |steps|
  {
    steps == [] ||
    match steps[0]
    case Entered(loc) => StaysInside(EnterBounded(b, loc), Enter(full, loc), steps[1..])
    case Moved(d) =>
      && (Moves(full, d) <==> Moves(b, d))
      && StaysInside(if Moves(b, d) then b.(at := b.at + d) else b,
                     if Moves(full, d) then full.(at := full.at + d) else full, steps[1..])
  }

  /** Any session of entering and moving within reach: the 64 places shown are the newest of
      all, and the current place is that of a history without a bound. */
  lemma {:induction false} SessionKeepsWindow(b: History, full: History, steps: seq<Step>)
    requires Window(b, full) && StaysInside(b, full, steps)
    ensures Window(Walk(b, steps, true), Walk(full, steps, false))
    decreases |steps|
  {
    hide Enter, EnterBounded;
    if steps != [] {
      match steps[0]
      case Entered(loc) =>
        EnterKeepsWindow(b, full, loc);
        SessionKeepsWindow(EnterBounded(b, loc), Enter(full, loc), steps[1..]);
      case Moved(d) =>
        SessionKeepsWindow(if Moves(b, d) then b.(at := b.at + d) else b,
                           if Moves(full, d) then full.(at := full.at + d) else full, steps[1..]);
    }
  }

  // ---------------------------------------------------------------- what entering means

  /** What tells two places apart: a line of a file, or an address. */
  datatype Name = Line(path: string, cursor: int) | Address(address: string)

  function NameOf(loc: Location): Name {
    match loc
    case InSource(path, view) => Line(path, view.cursor)
    case InAssembly(address, _, _, _) => Address(address)
  }

  /** The entered place shows at the current position, under the name it was entered with; a
      function's name stays as it was first given. */
  predicate Shows(now: Location, loc: Location) {
    match loc
    case InSource(_, _) => now == loc
    case InAssembly(address, _, selected, top) =>
      now.InAssembly? && now.address == address && now.selected == selected && now.top == top
  }

  /** Entering a place without a name does nothing. Otherwise it shows, and the places behind the
      current one are kept; the current one is kept too, and followed by the new one with nothing
      ahead of it, if and only if it has another name. */
  lemma EnterMeans(h: History, loc: Location)
    requires -1 <= h.at < |h.places|
    ensures var r := Enter(h, loc);
            if NameOf(loc) == Address("") || (loc.InSource? && loc.path == "") then r == h
            else if h.at >= 0 && NameOf(h.places[h.at]) == NameOf(loc) then
              && r.at == h.at && |r.places| == |h.places| && Shows(r.places[r.at], loc)
              && (forall i :: 0 <= i < |h.places| && i != h.at ==> r.places[i] == h.places[i])
              && (loc.InAssembly? ==> r.places[r.at].function_ == h.places[h.at].function_)
            else r.places == h.places[..h.at + 1] + [loc] && r.at == h.at + 1
  {
  }

  /** No place follows one of the same name. */
  predicate NeighboursDiffer(h: History) {
    forall i :: 0 < i < |h.places| ==> NameOf(h.places[i - 1]) != NameOf(h.places[i])
  }

  lemma EnterKeepsNeighbours(h: History, loc: Location)
    requires -1 <= h.at < |h.places| && NeighboursDiffer(h)
    ensures NeighboursDiffer(Enter(h, loc)) && NeighboursDiffer(Trimmed(Enter(h, loc)))
  {
    EnterMeans(h, loc);
    var r := Enter(h, loc);
    forall i | 0 < i < |r.places|
      ensures NameOf(r.places[i - 1]) != NameOf(r.places[i])
    {
      if i < |h.places| { assert NameOf(h.places[i - 1]) != NameOf(h.places[i]); }
    }
  }

  /** In every session, whatever is entered and however one moves, going back or forward by one
      always leads to a different place. */
  lemma {:induction false} SessionKeepsNeighbours(h: History, steps: seq<Step>, bounded: bool)
    requires -1 <= h.at < |h.places| && (bounded ==> |h.places| <= UI_HISTORY_MAX) && NeighboursDiffer(h)
    ensures NeighboursDiffer(Walk(h, steps, bounded))
    decreases |steps|
  {
    hide Enter, Trimmed, NeighboursDiffer;
    if steps != [] {
      match steps[0]
      case Entered(loc) =>
        EnterKeepsNeighbours(h, loc);
        SessionKeepsNeighbours(if bounded then EnterBounded(h, loc) else Enter(h, loc), steps[1..], bounded);
      case Moved(d) =>
        var moved := if Moves(h, d) then h.(at := h.at + d) else h;
        PlacesDecide(h, moved);
        SessionKeepsNeighbours(moved, steps[1..], bounded);
    }
  }

  lemma PlacesDecide(h: History, other: History)
    requires h.places == other.places && NeighboursDiffer(h)
    ensures NeighboursDiffer(other)
  {
  }
}
