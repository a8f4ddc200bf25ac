/**
 * The isybau network store: nodes and edges keyed by id, an ordered list of
 * catchment areas, and an undo/redo history of document snapshots bounded
 * to `MaxSize` entries.
 */
module IsybauStore {
  import opened Wrappers

  datatype Node = Node(id: string, x: real, y: real, z: real)
  datatype Edge = Edge(id: string, fromNodeId: string, toNodeId: string)
  datatype Area = Area(id: string, size: real)

  /** What a history entry captures: the nodes, the edges and the areas. */
  datatype Snapshot = Snapshot(nodes: map<string, Node>, edges: map<string, Edge>, areas: seq<Area>)

  /** The part of `editor` the actions use: the mode and the selection (id and kind). */
  datatype Editor = Editor(mode: string, selectedId: Option<string>, selectedType: Option<string>)

  /** Lines 17-23: the editor starts in view mode with nothing selected. */
  const InitialEditor := Editor("view", None, None)

  /** The current document with the undo and redo stacks (tops at the end). */
  datatype History = History(current: Snapshot, undo: seq<Snapshot>, redo: seq<Snapshot>)

  /** `history.maxSize`. */
  const MaxSize := 20

  /** Together the two stacks never hold more than `MaxSize` snapshots. */
  predicate Bounded(h: History) {
    |h.undo| + |h.redo| <= MaxSize
  }

  // ------------------------------------------------------------- history

  /** `undoStack.push(s)` followed by one `shift()` when the stack has outgrown `MaxSize`. */
  function Pushed(stack: seq<Snapshot>, s: Snapshot): (r: seq<Snapshot>)
    ensures |r| > 0 && r[|r| - 1] == s
    ensures |stack| < MaxSize ==> r == stack + [s]
    ensures |stack| >= MaxSize ==> |r| == |stack| && r[..|r| - 1] == stack[1..]
  {
    var pushed := stack + [s];
    if |pushed| > MaxSize then pushed[1..] else pushed
  }

  /** `saveHistory` */
  function Saved(h: History): History {
    History(h.current, Pushed(h.undo, h.current), [])
  }

  /** `undo`: the current document goes to redo and the top of undo becomes current. */
  function Undone(h: History): History {
    if |h.undo| == 0 then h
    else History(h.undo[|h.undo| - 1], h.undo[..|h.undo| - 1], h.redo + [h.current])
  }

  /** `redo`: the mirror image of `undo`, with no trimming of the undo stack. */
  function Redone(h: History): History {
    if |h.redo| == 0 then h
    else History(h.redo[|h.redo| - 1], h.undo + [h.current], h.redo[..|h.redo| - 1])
  }

  /**
   * Saving keeps the document, makes it the top of undo, clears redo, and
   * keeps the bound.
   */
  lemma SaveFacts(h: History)
    requires |h.undo| <= MaxSize
    ensures var r := Saved(h);
      && r.current == h.current && r.redo == []
      && |r.undo| > 0 && r.undo[|r.undo| - 1] == h.current
      && Bounded(r)
  {
  }

  /** With both stacks under the bound saving drops nothing; at the bound it drops the oldest entry. */
  lemma SaveDropsOnlyOldest(h: History)
    requires |h.undo| <= MaxSize
    ensures |h.undo| < MaxSize ==> Saved(h).undo == h.undo + [h.current]
    ensures |h.undo| == MaxSize ==> Saved(h).undo == h.undo[1..] + [h.current]
  {
    var r := Saved(h).undo;
    if |h.undo| == MaxSize {
      assert r[..|r| - 1] == h.undo[1..];
      assert r == r[..|r| - 1] + [r[|r| - 1]];
    }
  }

  /** Undo on an empty undo stack changes nothing; redo on an empty redo stack neither. */
  lemma EmptyStacksAreNoOps(h: History)
    ensures h.undo == [] ==> Undone(h) == h
    ensures h.redo == [] ==> Redone(h) == h
  {
  }

  /** Undo moves one entry from undo to redo, redo one from redo to undo; both keep the bound. */
  lemma UndoRedoMoveOneEntry(h: History)
    ensures |h.undo| > 0 ==> |Undone(h).undo| == |h.undo| - 1 && |Undone(h).redo| == |h.redo| + 1
    ensures |h.redo| > 0 ==> |Redone(h).redo| == |h.redo| - 1 && |Redone(h).undo| == |h.undo| + 1
    ensures Bounded(h) ==> Bounded(Undone(h)) && Bounded(Redone(h))
  {
  }

  /** Redo takes back an undo, and undo a redo: document and both stacks are restored. */
  lemma RedoUndoesUndo(h: History)
    ensures |h.undo| > 0 ==> Redone(Undone(h)) == h
    ensures |h.redo| > 0 ==> Undone(Redone(h)) == h
  {
    if |h.undo| > 0 {
      assert h.undo[..|h.undo| - 1] + [h.undo[|h.undo| - 1]] == h.undo;
      assert (h.redo + [h.current])[..|h.redo|] == h.redo;
    }
    if |h.redo| > 0 {
      assert h.redo[..|h.redo| - 1] + [h.redo[|h.redo| - 1]] == h.redo;
      assert (h.undo + [h.current])[..|h.undo|] == h.undo;
    }
  }

  // ------------------------------------------------------ edits on values

  /** The edge starts or ends at node `id`. */
  predicate Touches(e: Edge, id: string) {
    e.fromNodeId == id || e.toNodeId == id
  }

  /** The edges that neither start nor end at node `id`. */
  function Detached(edges: map<string, Edge>, id: string): (r: map<string, Edge>)
    ensures forall e :: e in r <==> e in edges && !Touches(edges[e], id)
    ensures forall e :: e in r ==> r[e] == edges[e]
  {
    map e | e in edges && !Touches(edges[e], id) :: edges[e]
  }

  /** `findIndex`: the first position of an area with this id, or -1. */
  function FindIndex(areas: seq<Area>, id: string): (i: int)
    ensures -1 <= i < |areas|
    ensures i >= 0 ==> areas[i].id == id
    ensures forall k :: 0 <= k < |areas| && (i == -1 || k < i) ==> areas[k].id != id
    decreases |areas|
  {
    if |areas| == 0 then -1
    else if areas[0].id == id then 0
    else
      var rest := FindIndex(areas[1..], id);
      assert forall k :: 1 <= k < |areas| ==> areas[k] == areas[1..][k - 1];
      if rest == -1 then -1 else rest + 1
  }

  /** The areas with the first one of this id spliced out. */
  function WithoutFirst(areas: seq<Area>, id: string): seq<Area> {
    var i := FindIndex(areas, id);
    if i == -1 then areas else areas[..i] + areas[i + 1..]
  }

  /** The number of areas carrying this id. */
  function CountId(areas: seq<Area>, id: string): nat
    decreases |areas|
  {
    if |areas| == 0 then 0
    else (if areas[0].id == id then 1 else 0) + CountId(areas[1..], id)
  }

  lemma {:induction false} CountIdAppend(a: seq<Area>, b: seq<Area>, id: string)
    ensures CountId(a + b, id) == CountId(a, id) + CountId(b, id)
    decreases |a|
  {
    if |a| > 0 {
      assert (a + b)[0] == a[0] && (a + b)[1..] == a[1..] + b;
      CountIdAppend(a[1..], b, id);
      assert CountId(a + b, id) == (if a[0].id == id then 1 else 0) + CountId(a[1..] + b, id);
    } else {
      assert a + b == b;
    }
  }

  lemma {:induction false} CountIdZero(a: seq<Area>, id: string)
    requires forall k :: 0 <= k < |a| ==> a[k].id != id
    ensures CountId(a, id) == 0
    decreases |a|
  {
    if |a| > 0 {
      CountIdZero(a[1..], id);
    }
  }

  /**
   * Removing by id: an unknown id leaves the areas as they are; otherwise
   * exactly one area goes, the first with that id, and the others keep their
   * order.
   */
  lemma {:induction false} WithoutFirstFacts(areas: seq<Area>, id: string)
    ensures (forall k :: 0 <= k < |areas| ==> areas[k].id != id) ==> WithoutFirst(areas, id) == areas
    ensures (exists k :: 0 <= k < |areas| && areas[k].id == id) ==>
      && |WithoutFirst(areas, id)| == |areas| - 1
      && CountId(WithoutFirst(areas, id), id) == CountId(areas, id) - 1
      && multiset(WithoutFirst(areas, id)) + multiset{areas[FindIndex(areas, id)]} == multiset(areas)
  {
    var i := FindIndex(areas, id);
    if i >= 0 {
      var pre, post := areas[..i], areas[i + 1..];
      assert areas == pre + [areas[i]] + post;
      CountIdAppend(pre + [areas[i]], post, id);
      CountIdAppend(pre, [areas[i]], id);
      CountIdAppend(pre, post, id);
      CountIdZero(pre, id);
      assert CountId([areas[i]], id) == 1;
    }
  }

  // ------------------------------------------------------------ selection

  /** What `removeSelection` removes. */
  datatype Target = NoTarget | NodeTarget(id: string) | EdgeTarget(id: string) | AreaTarget(id: string)

  /**
   * Lines 341-356: nothing without a (truthy) selected id; otherwise the
   * selected kind decides, and without a known kind the id is looked up among
   * the nodes, then the edges, and taken to be an area's last.
   */
  function SelectionTarget(e: Editor, nodes: map<string, Node>, edges: map<string, Edge>): Target {
    if e.selectedId.None? || e.selectedId.value == "" then NoTarget
    else
      var id := e.selectedId.value;
      if e.selectedType == Some("node") then NodeTarget(id)
      else if e.selectedType == Some("edge") then EdgeTarget(id)
      else if e.selectedType == Some("area") then AreaTarget(id)
      else if id in nodes then NodeTarget(id)
      else if id in edges then EdgeTarget(id)
      else AreaTarget(id)
  }

  /** The document after `removeNode`, `removeEdge` or `removeArea` of the target. */
  function RemovedBy(s: Snapshot, t: Target): Snapshot {
    match t
    case NoTarget => s
    case NodeTarget(id) => if id in s.nodes then Snapshot(s.nodes - {id}, Detached(s.edges, id), s.areas) else s
    case EdgeTarget(id) => Snapshot(s.nodes, s.edges - {id}, s.areas)
    case AreaTarget(id) => Snapshot(s.nodes, s.edges, WithoutFirst(s.areas, id))
  }

  /**
   * Removing the selection: nothing goes without a selected id; with one, the
   * selected entity is gone afterwards and the other two collections keep
   * what does not hang on it. Without a known kind a node id removes the
   * node, else an edge id the edge, else the first area with the id.
   */
  lemma SelectionRemovalFacts(s: Snapshot, e: Editor)
    ensures var t, r := SelectionTarget(e, s.nodes, s.edges), RemovedBy(s, SelectionTarget(e, s.nodes, s.edges));
      && (t == NoTarget <==> e.selectedId.None? || e.selectedId.value == "")
      && (t == NoTarget ==> r == s)
      && (t.NodeTarget? ==> t.id !in r.nodes && r.areas == s.areas)
      && (t.NodeTarget? && t.id in s.nodes ==> r.edges == Detached(s.edges, t.id))
      && (t.EdgeTarget? ==> t.id !in r.edges && r.nodes == s.nodes && r.areas == s.areas)
      && (t.AreaTarget? ==> r.nodes == s.nodes && r.edges == s.edges)
      && (t.AreaTarget? && (exists k :: 0 <= k < |s.areas| && s.areas[k].id == t.id) ==>
            CountId(r.areas, t.id) == CountId(s.areas, t.id) - 1)
      && (t != NoTarget && e.selectedType !in {Some("node"), Some("edge"), Some("area")} ==>
            (t.NodeTarget? <==> t.id in s.nodes) && (t.EdgeTarget? <==> t.id !in s.nodes && t.id in s.edges))
  {
    var t := SelectionTarget(e, s.nodes, s.edges);
    if t.AreaTarget? {
      WithoutFirstFacts(s.areas, t.id);
    }
  }

  // ----------------------------------------------------------------- store

  class Store {
    var nodes: map<string, Node>
    var edges: map<string, Edge>
    var areas: seq<Area>
    /** The inspection (TV survey) records, as text. */
    var inspections: seq<string>
    var editor: Editor
    /** `simulation.results`, as text. */
    var results: Option<string>
    var undoStack: seq<Snapshot>
    var redoStack: seq<Snapshot>

    function Current(): Snapshot
      reads this
    {
      Snapshot(nodes, edges, areas)
    }

    function State(): History
      reads this
    {
      History(Current(), undoStack, redoStack)
    }

    ghost predicate Valid()
      reads this
    {
      Bounded(State())
    }

    /** The store's initial state: everything empty, nothing selected. */
    constructor()
      ensures Valid()
      ensures nodes == map[] && edges == map[] && areas == [] && inspections == []
      ensures editor == InitialEditor && results == None
      ensures undoStack == [] && redoStack == []
    {
      nodes, edges, areas, inspections := map[], map[], [], [];
      editor, results := InitialEditor, None;
      undoStack, redoStack := [], [];
    }

    /** `clear`: the document, inspections, selected id and results are emptied; the history, the mode and the selected kind are kept. */
    method Clear()
      requires Valid()
      modifies this
      ensures Valid()
      ensures nodes == map[] && edges == map[] && areas == [] && inspections == []
      ensures editor == old(editor).(selectedId := None) && results == None
      ensures undoStack == old(undoStack) && redoStack == old(redoStack)
    {
      nodes := map[];
      edges := map[];
      areas := [];
      inspections := [];
      editor := editor.(selectedId := None);
      results := None;
    }

    method SaveHistory()
      requires Valid()
      modifies this
      ensures Valid()
      ensures State() == Saved(old(State()))
      ensures inspections == old(inspections) && editor == old(editor) && results == old(results)
    {
      SaveFacts(State());
      undoStack := Pushed(undoStack, Current());
      redoStack := [];
    }

    /** `restoreSnapshot`: the document becomes the snapshot's. */
    method RestoreSnapshot(s: Snapshot)
      modifies this
      ensures Current() == s
      ensures undoStack == old(undoStack) && redoStack == old(redoStack)
      ensures inspections == old(inspections) && editor == old(editor) && results == old(results)
    {
      nodes := s.nodes;
      edges := s.edges;
      areas := s.areas;
    }

    method Undo()
      requires Valid()
      modifies this
      ensures Valid()
      ensures State() == Undone(old(State()))
      ensures inspections == old(inspections) && editor == old(editor) && results == old(results)
    {
      UndoRedoMoveOneEntry(State());
      if |undoStack| == 0 {
        return;
      }
      redoStack := redoStack + [Current()];
      var snapshot := undoStack[|undoStack| - 1];
      undoStack := undoStack[..|undoStack| - 1];
      RestoreSnapshot(snapshot);
    }

    method Redo()
      requires Valid()
      modifies this
      ensures Valid()
      ensures State() == Redone(old(State()))
      ensures inspections == old(inspections) && editor == old(editor) && results == old(results)
    {
      UndoRedoMoveOneEntry(State());
      if |redoStack| == 0 {
        return;
      }
      undoStack := undoStack + [Current()];
      var snapshot := redoStack[|redoStack| - 1];
      redoStack := redoStack[..|redoStack| - 1];
      RestoreSnapshot(snapshot);
    }

    /**
     * `removeNode`: after saving the history, a known node is deleted along
     * with every edge that starts or ends at it; other edges stay. An unknown
     * id changes only the history.
     */
    method RemoveNode(id: string)
      requires Valid()
      modifies this
      ensures Valid()
      ensures undoStack == Pushed(old(undoStack), old(Current())) && redoStack == []
      ensures id in old(nodes) ==> nodes == old(nodes) - {id} && edges == Detached(old(edges), id)
      ensures id !in old(nodes) ==> nodes == old(nodes) && edges == old(edges)
      ensures areas == old(areas)
      ensures inspections == old(inspections) && editor == old(editor) && results == old(results)
    {
      SaveHistory();
      if id in nodes {
        nodes := nodes - {id};
        var before, kept := edges, edges;
        var pending := edges.Keys;
        while pending != {}
          invariant pending <= before.Keys
          invariant kept == map e | e in before && (e in pending || !Touches(before[e], id)) :: before[e]
          modifies {}
          decreases pending
        {
          EmptyOrMember(pending);
          var eId :| eId in pending;
          if Touches(kept[eId], id) {
            kept := kept - {eId};
          }
          pending := pending - {eId};
        }
        edges := kept;
      }
    }

    /**
     * `addEdge`: the history is saved in every case; with either endpoint
     * missing no edge is added and the result is null, otherwise the edge is
     * stored under its id (given, or made from the clock), replacing any edge
     * with that id.
     */
    method AddEdge(fromId: string, toId: string, givenId: Option<string>, clockId: string) returns (edge: Option<Edge>)
      requires Valid()
      modifies this
      ensures Valid()
      ensures undoStack == Pushed(old(undoStack), old(Current())) && redoStack == []
      ensures edge.None? <==> fromId !in old(nodes) || toId !in old(nodes)
      ensures edge.None? ==> edges == old(edges)
      ensures edge.Some? ==>
        && edge.value.fromNodeId == fromId && edge.value.toNodeId == toId
        && edge.value.id == (if givenId.Some? && givenId.value != "" then givenId.value else clockId)
        && edges == old(edges)[edge.value.id := edge.value]
      ensures nodes == old(nodes) && areas == old(areas)
      ensures inspections == old(inspections) && editor == old(editor) && results == old(results)
    {
      SaveHistory();
      var id := if givenId.Some? && givenId.value != "" then givenId.value else clockId;
      if fromId !in nodes || toId !in nodes {
        return None;
      }
      var e := Edge(id, fromId, toId);
      edges := edges[id := e];
      return Some(e);
    }

    /** `removeEdge`: after saving the history, a known edge is deleted; an unknown id changes only the history. */
    method RemoveEdge(id: string)
      requires Valid()
      modifies this
      ensures Valid()
      ensures undoStack == Pushed(old(undoStack), old(Current())) && redoStack == []
      ensures edges == old(edges) - {id}
      ensures nodes == old(nodes) && areas == old(areas)
      ensures inspections == old(inspections) && editor == old(editor) && results == old(results)
    {
      SaveHistory();
      if id in edges {
        edges := edges - {id};
      }
    }

    /** `removeArea`: after saving the history, the first area with this id is spliced out. */
    method RemoveArea(id: string)
      requires Valid()
      modifies this
      ensures Valid()
      ensures undoStack == Pushed(old(undoStack), old(Current())) && redoStack == []
      ensures areas == WithoutFirst(old(areas), id)
      ensures nodes == old(nodes) && edges == old(edges)
      ensures inspections == old(inspections) && editor == old(editor) && results == old(results)
    {
      SaveHistory();
      var index := FindIndex(areas, id);
      if index != -1 {
        areas := areas[..index] + areas[index + 1..];
      }
    }

    /** `clearSelection`: no selected id or kind, and the mode back to view. */
    method ClearSelection()
      modifies this
      ensures editor == old(editor).(mode := "view", selectedId := None, selectedType := None)
      ensures State() == old(State())
      ensures inspections == old(inspections) && results == old(results)
    {
      editor := editor.(mode := "view", selectedId := None, selectedType := None);
    }

    /**
     * `removeSelection`: without a selected id nothing happens; otherwise the
     * history is saved, the target of the selection is removed and the
     * selection cleared.
     */
    method RemoveSelection()
      requires Valid()
      modifies this
      ensures Valid()
      ensures var t := SelectionTarget(old(editor), old(nodes), old(edges));
        && (t == NoTarget ==> State() == old(State()) && editor == old(editor))
        && (t != NoTarget ==>
              && undoStack == Pushed(old(undoStack), old(Current())) && redoStack == []
              && Current() == RemovedBy(old(Current()), t)
              && editor == old(editor).(mode := "view", selectedId := None, selectedType := None))
      ensures inspections == old(inspections) && results == old(results)
    {
      var selected := editor.selectedId;
      if selected.None? || selected.value == "" {
        return;
      }
      var id := selected.value;
      var kind := editor.selectedType;
      if kind == Some("node") {
        RemoveNode(id);
      } else if kind == Some("edge") {
        RemoveEdge(id);
      } else if kind == Some("area") {
        RemoveArea(id);
      } else if id in nodes {
        RemoveNode(id);
      } else if id in edges {
        RemoveEdge(id);
      } else {
        RemoveArea(id);
      }
      ClearSelection();
    }
  }

  lemma EmptyOrMember(s: set<string>)
    ensures s == {} || exists x :: x in s
  {
    if forall x :: x !in s {
      assert s == {};
    }
  }
}
