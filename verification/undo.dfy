/** The editor's undo history (editor/undo.py).

    `UndoManager` keeps two Python lists used as bounded stacks. The lists
    hold references to action objects; what an action's `undo`/`redo` does
    to the rest of the editor is a separate world `W`, changed by the
    functions the caller passes in. Stacks are therefore compared by the
    identity of the references they hold, exactly as the Python lists are. */
module Undo {
  import opened Py

  /** `UndoManager.__init__`'s default capacity. */
  const DefaultMaxUndo: nat := 50

  datatype Manager<A> = Manager(maxUndo: nat, undoActions: seq<A>, redoActions: seq<A>)
  {
    /** `undo_count`: the number of undoable actions. */
    function UndoCount(): nat { |undoActions| }

    /** `redo_count`: the number of redoable actions. */
    function RedoCount(): nat { |redoActions| }

    /** Both stacks within capacity, and a capacity `add_action` can work with. */
    ghost predicate Valid()
    {
      maxUndo >= 1 && |undoActions| <= maxUndo && |redoActions| <= maxUndo
    }
  }

  /** A fresh `UndoManager(max_undo)`. */
  function NewManager<A>(maxUndo: nat): (m: Manager<A>)
    ensures m.UndoCount() == 0 && m.RedoCount() == 0
    ensures m.maxUndo == maxUndo
    ensures maxUndo >= 1 ==> m.Valid()
  {
    Manager(maxUndo, [], [])
  }

  /** The list after `if len(s) >= cap: del s[0]` followed by `s.append(a)`. */
  function PushBounded<A>(s: seq<A>, a: A, cap: nat): seq<A>
    requires cap >= 1
  {
    (if |s| >= cap then s[1..] else s) + [a]
  }

  lemma PushBoundedShape<A>(s: seq<A>, a: A, cap: nat)
    requires cap >= 1
    ensures var r := PushBounded(s, a, cap);
      && |r| >= 1 && r[|r| - 1] == a
      && (|s| < cap ==> r == s + [a])
      && (|s| >= cap ==> |s| >= 1 && r == s[1..] + [a])
      && (|s| <= cap ==> |r| <= cap)
  {
  }

  /** `add_action`: empties the redo stack and pushes onto the undo stack,
      dropping its oldest entry at capacity. */
  function AddAction<A>(m: Manager<A>, a: A): (r: Manager<A>)
    requires m.maxUndo >= 1
    ensures r.redoActions == []
    ensures r.maxUndo == m.maxUndo
    ensures r.UndoCount() >= 1 && r.undoActions[r.UndoCount() - 1] == a
    ensures m.UndoCount() < m.maxUndo ==> r.undoActions == m.undoActions + [a]
    ensures m.UndoCount() >= m.maxUndo ==> r.undoActions == m.undoActions[1..] + [a]
    ensures m.UndoCount() <= m.maxUndo ==> r.Valid()
  {
    Manager(m.maxUndo, PushBounded(m.undoActions, a, m.maxUndo), [])
  }

  /** `get_next_undo_action`: the top of the undo stack; indexing an empty
      list raises `IndexError`. */
  function NextUndoAction<A>(m: Manager<A>): (r: Result<A>)
    ensures r.Ok? <==> m.UndoCount() > 0
    ensures r.Raise? ==> r.error == IndexError
    ensures r.Ok? ==> r.value == m.undoActions[m.UndoCount() - 1]
  {
    if |m.undoActions| == 0 then Raise(IndexError) else Ok(m.undoActions[|m.undoActions| - 1])
  }

  /** `get_next_redo_action`: the top of the redo stack. */
  function NextRedoAction<A>(m: Manager<A>): (r: Result<A>)
    ensures r.Ok? <==> m.RedoCount() > 0
    ensures r.Raise? ==> r.error == IndexError
    ensures r.Ok? ==> r.value == m.redoActions[m.RedoCount() - 1]
  {
    if |m.redoActions| == 0 then Raise(IndexError) else Ok(m.redoActions[|m.redoActions| - 1])
  }

  /** `undo_action`: pops the newest undo entry, runs its `undo` on the world
      and pushes it onto the redo stack (dropping redo's oldest entry at
      capacity). On an empty undo stack it raises `UndoError("Nothing to
      undo")` and neither the stacks nor the world change. */
  function UndoAction<A, W>(m: Manager<A>, w: W, undo: (A, W) -> W): (r: Outcome<(Manager<A>, W)>)
    requires m.maxUndo >= 1
    ensures m.UndoCount() == 0 <==> !r.Succeeded()
    ensures m.UndoCount() == 0 ==>
      r.raised == Some(UndoError("Nothing to undo")) && r.state == (m, w)
    ensures m.UndoCount() > 0 ==>
      var a := m.undoActions[m.UndoCount() - 1];
      var m' := r.state.0;
      && m'.maxUndo == m.maxUndo
      && m'.undoActions == m.undoActions[..m.UndoCount() - 1]
      && m'.RedoCount() >= 1 && m'.redoActions[m'.RedoCount() - 1] == a
      && m'.redoActions[..m'.RedoCount() - 1]
         == (if m.RedoCount() >= m.maxUndo then m.redoActions[1..] else m.redoActions)
      && r.state.1 == undo(a, w)
  {
    if |m.undoActions| == 0 then
      Fail((m, w), UndoError("Nothing to undo"))
    else
      var a := m.undoActions[|m.undoActions| - 1];
      var w' := undo(a, w);
      Done((Manager(m.maxUndo, m.undoActions[..|m.undoActions| - 1],
                    PushBounded(m.redoActions, a, m.maxUndo)), w'))
  }

  /** `redo_action`: the mirror of `undo_action`. */
  function RedoAction<A, W>(m: Manager<A>, w: W, redo: (A, W) -> W): (r: Outcome<(Manager<A>, W)>)
    requires m.maxUndo >= 1
    ensures m.RedoCount() == 0 <==> !r.Succeeded()
    ensures m.RedoCount() == 0 ==>
      r.raised == Some(UndoError("Nothing to redo")) && r.state == (m, w)
    ensures m.RedoCount() > 0 ==>
      var a := m.redoActions[m.RedoCount() - 1];
      var m' := r.state.0;
      && m'.maxUndo == m.maxUndo
      && m'.redoActions == m.redoActions[..m.RedoCount() - 1]
      && m'.UndoCount() >= 1 && m'.undoActions[m'.UndoCount() - 1] == a
      && m'.undoActions[..m'.UndoCount() - 1]
         == (if m.UndoCount() >= m.maxUndo then m.undoActions[1..] else m.undoActions)
      && r.state.1 == redo(a, w)
  {
    if |m.redoActions| == 0 then
      Fail((m, w), UndoError("Nothing to redo"))
    else
      var a := m.redoActions[|m.redoActions| - 1];
      var w' := redo(a, w);
      Done((Manager(m.maxUndo, PushBounded(m.undoActions, a, m.maxUndo),
                    m.redoActions[..|m.redoActions| - 1]), w'))
  }

  /** Every operation keeps both stacks within capacity. */
  lemma OperationsPreserveValid<A, W>(m: Manager<A>, a: A, w: W, undo: (A, W) -> W, redo: (A, W) -> W)
    requires m.Valid()
    ensures AddAction(m, a).Valid()
    ensures UndoAction(m, w, undo).state.0.Valid()
    ensures RedoAction(m, w, redo).state.0.Valid()
  {
    PushBoundedShape(m.undoActions, a, m.maxUndo);
    if m.UndoCount() > 0 {
      PushBoundedShape(m.redoActions, m.undoActions[m.UndoCount() - 1], m.maxUndo);
    }
    if m.RedoCount() > 0 {
      PushBoundedShape(m.undoActions, m.redoActions[m.RedoCount() - 1], m.maxUndo);
    }
  }

  /** Below capacity, undoing and then redoing puts both stacks back exactly,
      and the world has seen the action's `undo` followed by its `redo`. */
  lemma UndoThenRedoRestoresStacks<A, W>(m: Manager<A>, w: W, undo: (A, W) -> W, redo: (A, W) -> W)
    requires m.maxUndo >= 1
    requires 0 < m.UndoCount() <= m.maxUndo && m.RedoCount() < m.maxUndo
    ensures var u := UndoAction(m, w, undo);
      var v := RedoAction(u.state.0, u.state.1, redo);
      && u.Succeeded() && v.Succeeded()
      && v.state.0 == m
      && v.state.1 == redo(m.undoActions[m.UndoCount() - 1], undo(m.undoActions[m.UndoCount() - 1], w))
  {
    var a := m.undoActions[m.UndoCount() - 1];
    var u := UndoAction(m, w, undo);
    assert u.state.0.redoActions == m.redoActions + [a];
    assert u.state.0.UndoCount() < m.maxUndo;
    var v := RedoAction(u.state.0, u.state.1, redo);
    assert v.state.0.redoActions == m.redoActions;
    assert v.state.0.undoActions == m.undoActions[..m.UndoCount() - 1] + [a];
    assert m.undoActions == m.undoActions[..m.UndoCount() - 1] + [a];
  }

  /** Undo and redo move exactly one action: the total count only drops, by
      one, when the receiving stack was full. */
  lemma MovesKeepTotalCount<A, W>(m: Manager<A>, w: W, undo: (A, W) -> W, redo: (A, W) -> W)
    requires m.maxUndo >= 1
    ensures var m' := UndoAction(m, w, undo).state.0;
      m'.UndoCount() + m'.RedoCount()
        == m.UndoCount() + m.RedoCount() - (if m.UndoCount() > 0 && m.RedoCount() >= m.maxUndo then 1 else 0)
    ensures var m' := RedoAction(m, w, redo).state.0;
      m'.UndoCount() + m'.RedoCount()
        == m.UndoCount() + m.RedoCount() - (if m.RedoCount() > 0 && m.UndoCount() >= m.maxUndo then 1 else 0)
  {
  }

  /** Pushing one more action than the capacity onto a full undo stack does
      not fail; it loses the oldest action, and the remaining ones keep their
      order. */
  lemma OverflowDropsOldest<A>(m: Manager<A>, a: A)
    requires m.maxUndo >= 1 && m.UndoCount() == m.maxUndo
    ensures var r := AddAction(m, a);
      && r.UndoCount() == m.maxUndo
      && r.undoActions == m.undoActions[1..] + [a]
      && r.RedoCount() == 0
  {
  }
}
