/** The undo stack of the script editor: at most 32 snapshots, the oldest dropped first. */
module EditorUndo {
  import opened Options
  import opened EditorText
  import opened EditorEdits

  const EDITOR_UNDO_DEPTH := 32

  /** editor_save_undo on the stack */
  function Push(stack: seq<Buf>, b: Buf): seq<Buf> {
    (if |stack| >= EDITOR_UNDO_DEPTH then stack[1..] else stack) + [b]
  }

  /** A stack in order. */
  predicate Kept(stack: seq<Buf>) {
    |stack| <= EDITOR_UNDO_DEPTH && forall i :: 0 <= i < |stack| ==> Storable(stack[i])
  }

  lemma PushKeeps(stack: seq<Buf>, b: Buf)
    requires Kept(stack) && Storable(b)
    ensures Kept(Push(stack, b))
  {
    hide Storable;
  }

  lemma PopKeeps(stack: seq<Buf>)
    requires Kept(stack) && stack != []
    ensures Storable(stack[|stack| - 1]) && Kept(stack[..|stack| - 1])
  {
    hide Storable;
  }

  /** The editor as far as undo is concerned. */
  datatype Session = Session(buf: Buf, stack: seq<Buf>)

  /** A snapshot as undo shows it, with the cursor at most at the end of its line. */
  function Restored(b: Buf): (r: Buf)
    ensures r.lines == b.lines && r.row == b.row
  {
    if 0 <= b.row < |b.lines| && b.col > |b.lines[b.row]| then b.(col := |b.lines[b.row]|) else b
  }

  /** editor_undo: the newest snapshot; nothing without one. */
  function Undo(s: Session): Session {
    if s.stack == [] then s else Session(Restored(s.stack[|s.stack| - 1]), s.stack[..|s.stack| - 1])
  }

  function Undos(s: Session, n: nat): Session
    decreases n
  {
    if n == 0 then s else Undos(Undo(s), n - 1)
  }

  /** One edit: the snapshot it saves, and the text after it. */
  datatype Change = Change(snap: Buf, after: Buf)

  function Edit(s: Session, c: Change): Session {
    Session(c.after, Push(s.stack, c.snap))
  }

  function Edits(s: Session, cs: seq<Change>): Session
    decreases |cs|
  {
    if cs == [] then s else Edits(Edit(s, cs[0]), cs[1..])
  }

  lemma {:induction false} EditsJoin(s: Session, early: seq<Change>, late: seq<Change>)
    ensures Edits(s, early + late) == Edits(Edits(s, early), late)
    decreases |early|
  {
    if early == [] {
      assert early + late == late;
    } else {
      assert (early + late)[1..] == early[1..] + late;
      EditsJoin(Edit(s, early[0]), early[1..], late);
    }
  }

  function Snaps(cs: seq<Change>): (r: seq<Buf>)
    ensures |r| == |cs| && forall i :: 0 <= i < |cs| ==> r[i] == cs[i].snap
  {
    if cs == [] then [] else [cs[0].snap] + Snaps(cs[1..])
  }

  /** The lines that the i-th edit finds. */
  function LinesBefore(s: Session, cs: seq<Change>, i: nat): seq<string>
    requires i <= |cs|
  {
    if i == 0 then s.buf.lines else cs[i - 1].after.lines
  }

  /** Every snapshot has the lines that its edit finds; the cursor may be elsewhere. */
  predicate SavesLines(s: Session, cs: seq<Change>) {
    forall i :: 0 <= i < |cs| ==> cs[i].snap.lines == LinesBefore(s, cs, i)
  }

  function Last(s: seq<Buf>, n: nat): seq<Buf> {
    if n >= |s| then s else s[|s| - n..]
  }

  // ---------------------------------------------------------------- the window

  /** After any number of edits the stack holds the newest 32 of all snapshots. */
  lemma {:induction false} StackIsWindow(s: Session, cs: seq<Change>)
    requires |s.stack| <= EDITOR_UNDO_DEPTH
    ensures Edits(s, cs).stack == Last(s.stack + Snaps(cs), EDITOR_UNDO_DEPTH)
    ensures Edits(s, cs).buf == if cs == [] then s.buf else cs[|cs| - 1].after
    decreases |cs|
  {
    if cs == [] {
      assert s.stack + [] == s.stack;
    } else {
      PushIsWindow(s.stack, cs[0].snap);
      hide Push, Last;
      var rest := cs[1..];
      StackIsWindow(Edit(s, cs[0]), rest);
      WindowOfWindow(s.stack + [cs[0].snap], Snaps(rest));
      Regroup(s.stack, [cs[0].snap], Snaps(rest));
    }
  }

  lemma PushIsWindow(stack: seq<Buf>, b: Buf)
    requires |stack| <= EDITOR_UNDO_DEPTH
    ensures Push(stack, b) == Last(stack + [b], EDITOR_UNDO_DEPTH) && |Push(stack, b)| <= EDITOR_UNDO_DEPTH
  {
  }

  lemma WindowOfWindow(early: seq<Buf>, late: seq<Buf>)
    ensures Last(Last(early, EDITOR_UNDO_DEPTH) + late, EDITOR_UNDO_DEPTH) == Last(early + late, EDITOR_UNDO_DEPTH)
  {
  }

  lemma {:induction false} UndosPop(s: Session, n: nat)
    requires 1 <= n <= |s.stack|
    ensures Undos(s, n) == Session(Restored(s.stack[|s.stack| - n]), s.stack[..|s.stack| - n])
    decreases n
  {
    if n > 1 {
      UndosPop(Undo(s), n - 1);
    }
  }

  lemma NewestOfWindow(stack: seq<Buf>, snaps: seq<Buf>, k: nat)
    requires 1 <= k <= |snaps| && k <= EDITOR_UNDO_DEPTH
    ensures var window := Last(stack + snaps, EDITOR_UNDO_DEPTH);
            k <= |window| && window[|window| - k] == snaps[|snaps| - k]
  {
  }

  /** The k-th newest of the stack is the snapshot of the k-th newest edit. */
  lemma StackEnd(s: Session, cs: seq<Change>, k: nat)
    requires |s.stack| <= EDITOR_UNDO_DEPTH && 1 <= k <= |cs| && k <= EDITOR_UNDO_DEPTH
    ensures var stack := Edits(s, cs).stack;
            k <= |stack| <= EDITOR_UNDO_DEPTH && stack[|stack| - k] == cs[|cs| - k].snap
  {
    hide Edits, Last, Snaps;
    StackIsWindow(s, cs);
    var snaps := Snaps(cs);
    NewestOfWindow(s.stack, snaps, k);
    WindowSize(s.stack + snaps);
  }

  lemma WindowSize(all: seq<Buf>)
    ensures |Last(all, EDITOR_UNDO_DEPTH)| == if |all| < EDITOR_UNDO_DEPTH then |all| else EDITOR_UNDO_DEPTH
  {
  }

  /** After n edits, any k undos with k up to 32 give what the k-th newest edit saved: the lines
      as they were before it, and its cursor as far as its line goes. */
  lemma UndoGoesBack(s: Session, cs: seq<Change>, k: nat)
    requires |s.stack| <= EDITOR_UNDO_DEPTH && 1 <= k <= |cs| && k <= EDITOR_UNDO_DEPTH
    ensures Undos(Edits(s, cs), k).buf == Restored(cs[|cs| - k].snap)
    ensures SavesLines(s, cs) ==> Undos(Edits(s, cs), k).buf.lines == LinesBefore(s, cs, |cs| - k)
  {
    hide Edits, Undos;
    StackEnd(s, cs, k);
    UndosPop(Edits(s, cs), k);
  }

  /** n edits, then n undos, with n at most 32: the lines of the start, always; its cursor if
      and only if the snapshot of the first shows it; its stack if there was room. */
  lemma UndoInvertsEdits(s: Session, cs: seq<Change>)
    requires |s.stack| <= EDITOR_UNDO_DEPTH && 1 <= |cs| <= EDITOR_UNDO_DEPTH && SavesLines(s, cs)
    ensures Undos(Edits(s, cs), |cs|).buf.lines == s.buf.lines
    ensures Undos(Edits(s, cs), |cs|).buf == s.buf <==> Cursor(Restored(cs[0].snap)) == Cursor(s.buf)
    ensures |s.stack| + |cs| <= EDITOR_UNDO_DEPTH ==> Undos(Edits(s, cs), |cs|).stack == s.stack
  {
    hide Edits, Undos;
    UndoGoesBack(s, cs, |cs|);
    assert cs[0].snap.lines == LinesBefore(s, cs, 0);
    if |s.stack| + |cs| <= EDITOR_UNDO_DEPTH { UndosEmptyTheRest(s, cs); }
  }

  lemma UndosEmptyTheRest(s: Session, cs: seq<Change>)
    requires cs != [] && |s.stack| + |cs| <= EDITOR_UNDO_DEPTH
    ensures Undos(Edits(s, cs), |cs|).stack == s.stack
  {
    StackIsWindow(s, cs);
    hide Edits, Undos;
    UndosPop(Edits(s, cs), |cs|);
    assert (s.stack + Snaps(cs))[..|s.stack|] == s.stack;
  }

  /** More edits than the stack is deep: any number of further undos stops 32 edits back. */
  lemma UndoStopsAtTheWindow(s: Session, cs: seq<Change>, k: nat)
    requires |s.stack| <= EDITOR_UNDO_DEPTH && |cs| > EDITOR_UNDO_DEPTH && k >= EDITOR_UNDO_DEPTH
    ensures Undos(Edits(s, cs), k) == Session(Restored(cs[|cs| - EDITOR_UNDO_DEPTH].snap), [])
  {
    hide Edits, Undos;
    StackEnd(s, cs, EDITOR_UNDO_DEPTH);
    var all := Edits(s, cs);
    UndosPop(all, EDITOR_UNDO_DEPTH);
    UndosAdd(all, EDITOR_UNDO_DEPTH, k - EDITOR_UNDO_DEPTH);
    UndosOfEmpty(Undos(all, EDITOR_UNDO_DEPTH), k - EDITOR_UNDO_DEPTH);
  }

  lemma {:induction false} UndosAdd(s: Session, n: nat, m: nat)
    ensures Undos(s, n + m) == Undos(Undos(s, n), m)
    decreases n
  {
    hide Undo;
    if n > 0 {
      UndosAdd(Undo(s), n - 1, m);
    }
  }

  lemma {:induction false} UndosOfEmpty(s: Session, n: nat)
    requires s.stack == []
    ensures Undos(s, n) == s
    decreases n
  {
    if n > 0 {
      UndosOfEmpty(s, n - 1);
    }
  }

  // ---------------------------------------------------------------- edits and undos mixed

  datatype Key = Changed(change: Change) | UndoPressed

  function Play(s: Session, keys: seq<Key>): Session
    decreases |keys|
  {
    if keys == [] then s
    else Play(match keys[0] { case Changed(c) => Edit(s, c) case UndoPressed => Undo(s) }, keys[1..])
  }

  /** The same keys with a stack that never drops a snapshot. */
  function PlayUnbounded(s: Session, keys: seq<Key>): Session
    decreases |keys|
  {
    if keys == [] then s
    else
      var next := match keys[0] { case Changed(c) => Session(c.after, s.stack + [c.snap]) case UndoPressed => Undo(s) };
      PlayUnbounded(next, keys[1..])
  }

  predicate IsSuffix(short: seq<Buf>, long: seq<Buf>) {
    |short| <= |long| && short == long[|long| - |short|..]
  }

  /** Undo is never pressed without a snapshot at hand. */
  predicate NeverDry(s: Session, keys: seq<Key>)
    decreases |keys|
  {
    keys == [] ||
    match keys[0]
    case Changed(c) => NeverDry(Edit(s, c), keys[1..])
    case UndoPressed => s.stack != [] && NeverDry(Undo(s), keys[1..])
  }

  lemma SuffixPushed(short: seq<Buf>, long: seq<Buf>, b: Buf)
    requires IsSuffix(short, long)
    ensures IsSuffix(Push(short, b), long + [b])
  {
  }

  /** Under any keys, as long as the bounded stack does not run dry, the editor shows what it
      would show with an unbounded one, and its stack is the newest part of that one. */
  lemma {:induction false} BoundedRefinesUnbounded(s: Session, u: Session, keys: seq<Key>)
    requires s.buf == u.buf && IsSuffix(s.stack, u.stack) && NeverDry(s, keys)
    ensures Play(s, keys).buf == PlayUnbounded(u, keys).buf
    ensures IsSuffix(Play(s, keys).stack, PlayUnbounded(u, keys).stack)
    decreases |keys|
  {
    if keys != [] {
      match keys[0]
      case Changed(c) =>
        SuffixPushed(s.stack, u.stack, c.snap);
        BoundedRefinesUnbounded(Edit(s, c), Session(c.after, u.stack + [c.snap]), keys[1..]);
      case UndoPressed =>
        assert IsSuffix(Undo(s).stack, Undo(u).stack);
        BoundedRefinesUnbounded(Undo(s), Undo(u), keys[1..]);
    }
  }
}
