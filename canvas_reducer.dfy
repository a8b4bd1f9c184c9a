/**
 * The floor-plan editor's state machine: the elements and groups on the
 * canvas, and the past and future stacks that undo and redo walk. Every
 * action but duplication builds its new state by copying; duplication also
 * fills an id table in a loop, rewrites the copies' references through it
 * and hands the new ids to a selection callback.
 */
module CanvasReducer {
  import opened Wrappers

  /**
   * A canvas element, with the properties the reducer reads or rewrites.
   * An element without `attachedTo` has `None`, one without
   * `attachedChairs` the empty list.
   */
  datatype Element = Element(
    id: string,
    kind: string,
    x: int,
    y: int,
    x1: int,
    y1: int,
    x2: int,
    y2: int,
    color: string,
    attachedTo: Option<string>,
    attachedChairs: seq<string>)

  /** A group of elements: its id and its other string properties. */
  datatype Group = Group(id: string, attrs: map<string, string>)

  datatype Point = Point(x: int, y: int)

  /** The undo stack and the redo stack; each entry is a whole earlier or later state. */
  datatype History = History(past: seq<AppState>, future: seq<AppState>)

  datatype AppState = AppState(
    buildMode: int,
    elements: seq<Element>,
    groups: seq<Group>,
    canvasPosition: Point,
    scale: int,
    history: History)

  /** `initialState`: build mode 0, an empty canvas at the origin, scale 1, no history. */
  const InitialState := AppState(0, [], [], Point(0, 0), 1, History([], []))

  /**
   * The payload of an element update: its id and the record properties it
   * sets (`None` for a property it does not carry); `Some(None)` sets
   * `attachedTo` to null.
   */
  datatype Patch = Patch(
    id: string,
    kind: Option<string>,
    x: Option<int>,
    y: Option<int>,
    x1: Option<int>,
    y1: Option<int>,
    x2: Option<int>,
    y2: Option<int>,
    color: Option<string>,
    attachedTo: Option<Option<string>>,
    attachedChairs: Option<seq<string>>)

  /** The value of a single-field update: a text, a number or a list of texts. */
  datatype FieldValue = Text(text: string) | Number(number: int) | Texts(texts: seq<string>)

  /** One id to duplicate, with the fresh id its copy receives. */
  datatype CopyRequest = CopyRequest(id: string, freshId: string)

  datatype Action =
    | SetState(payload: Option<AppState>)
    | AddElement(element: Element)
    | RemoveElements(ids: seq<string>)
    | UpdateElement(patch: Patch)
    | UpdateElementSpecificField(target: string, key: string, value: FieldValue)
    | UpdateMultipleElements(patches: seq<Patch>)
    | UpdateMultipleElementsWithoutUndoRedo(patches: seq<Patch>)
    | DuplicateMultipleElements(requests: seq<CopyRequest>)
    | CreateGroup(group: Group)
    | UpdateGroup(update: Group)
    | RemoveGroup(groupId: string)
    | ChangeBuildMode(mode: int)
    | Undo
    | Redo
    | CommitUndoRedoHistory
    | Unknown(name: string)

  // ---------------------------------------------------------------------
  // Element updates

  function Override<T>(requested: Option<T>, current: T): T {
    if requested.Some? then requested.value else current
  }

  /** `{ ...el, ...payload }`: each property the patch carries replaces the element's. */
  function ApplyPatch(el: Element, p: Patch): (r: Element)
    ensures r.id == p.id
    ensures p.kind.None? ==> r.kind == el.kind
    ensures p.kind.Some? ==> r.kind == p.kind.value
    ensures p.x.None? ==> r.x == el.x
    ensures p.x.Some? ==> r.x == p.x.value
    ensures p.y.None? ==> r.y == el.y
    ensures p.y.Some? ==> r.y == p.y.value
    ensures p.x1.None? ==> r.x1 == el.x1
    ensures p.x1.Some? ==> r.x1 == p.x1.value
    ensures p.y1.None? ==> r.y1 == el.y1
    ensures p.y1.Some? ==> r.y1 == p.y1.value
    ensures p.x2.None? ==> r.x2 == el.x2
    ensures p.x2.Some? ==> r.x2 == p.x2.value
    ensures p.y2.None? ==> r.y2 == el.y2
    ensures p.y2.Some? ==> r.y2 == p.y2.value
    ensures p.color.None? ==> r.color == el.color
    ensures p.color.Some? ==> r.color == p.color.value
    ensures p.attachedTo.None? ==> r.attachedTo == el.attachedTo
    ensures p.attachedTo.Some? ==> r.attachedTo == p.attachedTo.value
    ensures p.attachedChairs.None? ==> r.attachedChairs == el.attachedChairs
    ensures p.attachedChairs.Some? ==> r.attachedChairs == p.attachedChairs.value
  {
    el.(id := p.id,
        kind := Override(p.kind, el.kind),
        x := Override(p.x, el.x),
        y := Override(p.y, el.y),
        x1 := Override(p.x1, el.x1),
        y1 := Override(p.y1, el.y1),
        x2 := Override(p.x2, el.x2),
        y2 := Override(p.y2, el.y2),
        color := Override(p.color, el.color),
        attachedTo := Override(p.attachedTo, el.attachedTo),
        attachedChairs := Override(p.attachedChairs, el.attachedChairs))
  }

  /**
   * `{ ...el, [key]: value }` for the record's properties: a number sets a
   * coordinate; a text sets the id, the type, the colour or the attachment;
   * a list of texts sets the attached chairs. Any other key or a value of
   * another kind leaves the record as it is.
   */
  function ApplyField(el: Element, key: string, value: FieldValue): (r: Element)
    ensures value.Number? ==>
      r.id == el.id && r.kind == el.kind && r.color == el.color
      && r.attachedTo == el.attachedTo && r.attachedChairs == el.attachedChairs
    ensures value.Text? ==>
      r.x == el.x && r.y == el.y && r.x1 == el.x1 && r.y1 == el.y1 && r.x2 == el.x2 && r.y2 == el.y2
      && r.attachedChairs == el.attachedChairs
    ensures value.Texts? ==> r == (if key == "attachedChairs" then el.(attachedChairs := value.texts) else el)
    ensures value.Number? && key == "x" ==> r == el.(x := value.number)
    ensures value.Number? && key == "y" ==> r == el.(y := value.number)
    ensures value.Number? && key == "x1" ==> r == el.(x1 := value.number)
    ensures value.Number? && key == "y1" ==> r == el.(y1 := value.number)
    ensures value.Number? && key == "x2" ==> r == el.(x2 := value.number)
    ensures value.Number? && key == "y2" ==> r == el.(y2 := value.number)
    ensures value.Text? && key == "id" ==> r == el.(id := value.text)
    ensures value.Text? && key == "type" ==> r == el.(kind := value.text)
    ensures value.Text? && key == "color" ==> r == el.(color := value.text)
    ensures value.Text? && key == "attachedTo" ==> r == el.(attachedTo := Some(value.text))
    ensures key !in {"x", "y", "x1", "y1", "x2", "y2", "id", "type", "color", "attachedTo", "attachedChairs"} ==> r == el
  {
    match value
    case Number(n) =>
      if key == "x" then el.(x := n)
      else if key == "y" then el.(y := n)
      else if key == "x1" then el.(x1 := n)
      else if key == "y1" then el.(y1 := n)
      else if key == "x2" then el.(x2 := n)
      else if key == "y2" then el.(y2 := n)
      else el
    case Text(t) =>
      if key == "id" then el.(id := t)
      else if key == "type" then el.(kind := t)
      else if key == "color" then el.(color := t)
      else if key == "attachedTo" then el.(attachedTo := Some(t))
      else el
    case Texts(ts) =>
      if key == "attachedChairs" then el.(attachedChairs := ts) else el
  }

  /** `payload.find(u => u.id === el.id)`: the first patch for that id. */
  function FirstPatch(patches: seq<Patch>, id: string): (r: Option<Patch>)
    ensures r.Some? ==> r.value.id == id && r.value in patches
    ensures r.None? <==> forall i :: 0 <= i < |patches| ==> patches[i].id != id
    ensures r.Some? ==> exists i :: 0 <= i < |patches| && patches[i] == r.value
                           && forall k :: 0 <= k < i ==> patches[k].id != id
  {
    if patches == [] then None
    else if patches[0].id == id then Some(patches[0])
    else
      var r := FirstPatch(patches[1..], id);
      assert forall k :: 0 <= k < |patches| - 1 ==> patches[1..][k] == patches[k + 1];
      r
  }

  /** The elements, each updated by its first patch if there is one. */
  function PatchAll(elements: seq<Element>, patches: seq<Patch>): (r: seq<Element>)
    ensures |r| == |elements|
    ensures forall i :: 0 <= i < |elements| ==>
      r[i] == (var u := FirstPatch(patches, elements[i].id); if u.Some? then ApplyPatch(elements[i], u.value) else elements[i])
  {
    seq(|elements|, i requires 0 <= i < |elements| =>
      var u := FirstPatch(patches, elements[i].id);
      if u.Some? then ApplyPatch(elements[i], u.value) else elements[i])
  }

  /** `elements.filter(el => !ids.includes(el.id))`. */
  function RemoveIds(elements: seq<Element>, ids: seq<string>): (r: seq<Element>)
    ensures |r| <= |elements|
    ensures forall i :: 0 <= i < |r| ==> r[i].id !in ids
    ensures forall e :: e in r ==> e in elements
    decreases |elements|
  {
    if elements == [] then []
    else
      var rest := RemoveIds(elements[..|elements| - 1], ids);
      var last := elements[|elements| - 1];
      if last.id in ids then rest else rest + [last]
  }

  // ---------------------------------------------------------------------
  // Duplication: the specification the loop of `DuplicateElements` meets

  /** `elements.find(e => e.id === id)`: the first element with that id. */
  function Find(elements: seq<Element>, id: string): (r: Option<Element>)
    ensures r.Some? ==> r.value.id == id && r.value in elements
    ensures r.None? <==> forall i :: 0 <= i < |elements| ==> elements[i].id != id
  {
    if elements == [] then None
    else if elements[0].id == id then Some(elements[0])
    else
      var r := Find(elements[1..], id);
      assert forall k :: 0 <= k < |elements| - 1 ==> elements[1..][k] == elements[k + 1];
      r
  }

  /** The element found is the first one with the id: no element before it has that id. */
  lemma {:induction false} FindFirst(elements: seq<Element>, id: string, i: nat)
    requires i < |elements| && elements[i].id == id
    requires forall k :: 0 <= k < i ==> elements[k].id != id
    ensures Find(elements, id) == Some(elements[i])
    decreases i
  {
    if i > 0 {
      FindFirst(elements[1..], id, i - 1);
    }
  }

  /** The element types whose copy moves by its `x` and `y`. */
  predicate MovesByPosition(kind: string) {
    kind == "chair" || kind == "room" || kind == "rectTable" || kind == "circleTable"
  }

  /**
   * The copy of one original under its new id, 50 to the right and 50
   * down; an original of any other type than the five is not copied.
   */
  function Copy(original: Element, newId: string): (r: Option<Element>)
    ensures r.Some? <==> MovesByPosition(original.kind) || original.kind == "wall"
    ensures r.Some? ==> r.value.id == newId && r.value.kind == original.kind
    ensures r.Some? && MovesByPosition(original.kind) ==>
      r.value == original.(id := newId, x := original.x + 50, y := original.y + 50)
    ensures r.Some? && original.kind == "wall" ==>
      r.value == original.(id := newId, x1 := original.x1 + 50, y1 := original.y1 + 50,
                           x2 := original.x2 + 50, y2 := original.y2 + 50)
  {
    if MovesByPosition(original.kind) then
      Some(original.(id := newId, x := original.x + 50, y := original.y + 50))
    else if original.kind == "wall" then
      Some(original.(id := newId, x1 := original.x1 + 50, y1 := original.y1 + 50,
                     x2 := original.x2 + 50, y2 := original.y2 + 50))
    else None
  }

  /** Request `i` finds its original, and the original's type can be copied. */
  predicate Copied(elements: seq<Element>, requests: seq<CopyRequest>, i: nat)
    requires i < |requests|
  {
    var original := Find(elements, requests[i].id);
    original.Some? && Copy(original.value, requests[i].freshId).Some?
  }

  /** The copy that request `i` produces. */
  function CopyOf(elements: seq<Element>, requests: seq<CopyRequest>, i: nat): Element
    requires i < |requests| && Copied(elements, requests, i)
  {
    Copy(Find(elements, requests[i].id).value, requests[i].freshId).value
  }

  /** The id table: each found original's id, mapped to the fresh id of the last request for it. */
  function IdMap(elements: seq<Element>, requests: seq<CopyRequest>): map<string, string>
    decreases |requests|
  {
    if requests == [] then map[]
    else
      var init := requests[..|requests| - 1];
      var last := requests[|requests| - 1];
      var m := IdMap(elements, init);
      if Find(elements, last.id).Some? then m[last.id := last.freshId] else m
  }

  /** The index of the first request for `k`, if any. */
  function FirstRequestFor(requests: seq<CopyRequest>, k: string): (r: Option<nat>)
    ensures r.Some? ==> r.value < |requests| && requests[r.value].id == k
                        && forall t :: 0 <= t < r.value ==> requests[t].id != k
    ensures r.None? ==> forall t :: 0 <= t < |requests| ==> requests[t].id != k
    decreases |requests|
  {
    if requests == [] then None
    else
      var init := requests[..|requests| - 1];
      assert forall t :: 0 <= t < |init| ==> init[t] == requests[t];
      var first := FirstRequestFor(init, k);
      if first.Some? then first
      else if requests[|requests| - 1].id == k then Some(|requests| - 1)
      else None
  }

  /** The keys of the id table, each once, in the order they were first inserted. */
  function Keys(elements: seq<Element>, requests: seq<CopyRequest>): (r: seq<string>)
    ensures forall k :: k in r <==> k in IdMap(elements, requests)
    ensures forall i, j :: 0 <= i < j < |r| ==> r[i] != r[j]
    decreases |requests|
  {
    if requests == [] then []
    else
      var init := requests[..|requests| - 1];
      var last := requests[|requests| - 1];
      var keys := Keys(elements, init);
      if Find(elements, last.id).Some? && last.id !in IdMap(elements, init) then keys + [last.id] else keys
  }

  /**
   * The keys are listed in the order of their first requests: a key whose
   * first request comes earlier is listed earlier.
   */
  lemma {:induction false} KeysInFirstRequestOrder(elements: seq<Element>, requests: seq<CopyRequest>)
    ensures forall t :: 0 <= t < |Keys(elements, requests)| ==> FirstRequestFor(requests, Keys(elements, requests)[t]).Some?
    ensures forall i, j :: 0 <= i < j < |Keys(elements, requests)| ==>
      FirstRequestFor(requests, Keys(elements, requests)[i]).value
        < FirstRequestFor(requests, Keys(elements, requests)[j]).value
    decreases |requests|
  {
    if requests != [] {
      var init := requests[..|requests| - 1];
      var last := requests[|requests| - 1];
      var keys := Keys(elements, init);
      KeysInFirstRequestOrder(elements, init);
      assert forall t :: 0 <= t < |keys| ==> FirstRequestFor(requests, keys[t]) == FirstRequestFor(init, keys[t]);
      if Find(elements, last.id).Some? && last.id !in IdMap(elements, init) {
        IdMapDomain(elements, init, last.id);
        assert FirstRequestFor(init, last.id).None?;
        var r := Keys(elements, requests);
        assert r == keys + [last.id];
        assert forall t :: 0 <= t < |keys| ==> r[t] == keys[t];
      }
    }
  }

  /** The copies, in the order of the requests that produce them. */
  function Copies(elements: seq<Element>, requests: seq<CopyRequest>): seq<Element>
    decreases |requests|
  {
    if requests == [] then []
    else
      var init := requests[..|requests| - 1];
      var last := requests[|requests| - 1];
      var original := Find(elements, last.id);
      var copies := Copies(elements, init);
      if original.Some? && Copy(original.value, last.freshId).Some? then
        copies + [Copy(original.value, last.freshId).value]
      else copies
  }

  /** The indices of the requests that produce a copy, in increasing order. */
  function Sources(elements: seq<Element>, requests: seq<CopyRequest>): (r: seq<nat>)
    ensures forall j :: 0 <= j < |r| ==> r[j] < |requests| && Copied(elements, requests, r[j])
    ensures forall j, k :: 0 <= j < k < |r| ==> r[j] < r[k]
    ensures forall i :: 0 <= i < |requests| ==> (Copied(elements, requests, i) <==> i in r)
    decreases |requests|
  {
    if requests == [] then []
    else
      var init := requests[..|requests| - 1];
      var n := |requests| - 1;
      var s := Sources(elements, init);
      assert forall i :: 0 <= i < |init| ==> Copied(elements, init, i) == Copied(elements, requests, i) by {
        forall i | 0 <= i < |init| ensures Copied(elements, init, i) == Copied(elements, requests, i) {
          assert init[i] == requests[i];
        }
      }
      if Copied(elements, requests, n) then s + [n] else s
  }

  /** `idMap[value] ? idMap[value] : value`: a value that is a duplicated original's id becomes its copy's id. */
  function Remap(m: map<string, string>, v: string): string {
    if v in m && m[v] != "" then m[v] else v
  }

  /** The rewrite of every string property and every list of strings of a copy through the id table. */
  function RemapRefs(m: map<string, string>, e: Element): (r: Element)
    ensures r.x == e.x && r.y == e.y && r.x1 == e.x1 && r.y1 == e.y1 && r.x2 == e.x2 && r.y2 == e.y2
    ensures r.attachedTo.Some? <==> e.attachedTo.Some?
    ensures |r.attachedChairs| == |e.attachedChairs|
  {
    e.(id := Remap(m, e.id),
       kind := Remap(m, e.kind),
       color := Remap(m, e.color),
       attachedTo := if e.attachedTo.Some? then Some(Remap(m, e.attachedTo.value)) else None,
       attachedChairs := seq(|e.attachedChairs|, i requires 0 <= i < |e.attachedChairs| => Remap(m, e.attachedChairs[i])))
  }

  /** Every element rewritten through the id table. */
  function RemapAll(m: map<string, string>, es: seq<Element>): (r: seq<Element>)
    ensures |r| == |es| && forall j :: 0 <= j < |es| ==> r[j] == RemapRefs(m, es[j])
  {
    seq(|es|, j requires 0 <= j < |es| => RemapRefs(m, es[j]))
  }

  /** The copies with their references rewritten. */
  function RemappedCopies(elements: seq<Element>, requests: seq<CopyRequest>): (r: seq<Element>)
    ensures |r| == |Copies(elements, requests)|
  {
    RemapAll(IdMap(elements, requests), Copies(elements, requests))
  }

  /** The state after duplication: the originals, then the rewritten copies; the old state is pushed. */
  function Duplicated(state: AppState, requests: seq<CopyRequest>): AppState {
    state.(elements := state.elements + RemappedCopies(state.elements, requests),
           history := History(state.history.past + [state], []))
  }

  /** `Object.values(idMap)`: the new ids, in the order their keys entered the table. */
  function SelectedIds(elements: seq<Element>, requests: seq<CopyRequest>): (r: seq<string>)
    ensures |r| == |Keys(elements, requests)|
  {
    ValuesOf(IdMap(elements, requests), Keys(elements, requests))
  }

  /** The values of the listed keys, in the order of the list. */
  function ValuesOf(m: map<string, string>, keys: seq<string>): (r: seq<string>)
    requires forall t :: 0 <= t < |keys| ==> keys[t] in m
    ensures |r| == |keys| && forall t :: 0 <= t < |keys| ==> r[t] == m[keys[t]]
  {
    seq(|keys|, t requires 0 <= t < |keys| => m[keys[t]])
  }

  // ---------------------------------------------------------------------
  // The reducer

  /** The history after an edit: the current state on top of the undo stack, no redo. */
  function Pushed(state: AppState): History {
    History(state.history.past + [state], [])
  }

  /**
   * `reducer(state, action)`. Every edit of the elements pushes the state
   * onto the undo stack and clears the redo stack; the group, build-mode
   * and no-undo actions keep the history; loading a state clears it.
   */
  function Reduce(state: AppState, action: Action): (r: AppState)
    ensures action.SetState? ==> r.history == History([], [])
    ensures !(action.SetState? || action.Undo? || action.Redo?) ==>
      r.history == state.history || r.history == Pushed(state)
    ensures action.Undo? || action.Redo? ==>
      |r.history.past| + |r.history.future| == |state.history.past| + |state.history.future|
  {
    match action
    case SetState(payload) =>
      if payload.Some? then payload.value.(history := History([], []))
      else state.(history := History([], []))
    case AddElement(e) =>
      state.(elements := state.elements + [e], history := Pushed(state))
    case RemoveElements(ids) =>
      state.(elements := RemoveIds(state.elements, ids), history := Pushed(state))
    case UpdateElement(p) =>
      state.(elements := seq(|state.elements|, i requires 0 <= i < |state.elements| =>
                          if state.elements[i].id == p.id then ApplyPatch(state.elements[i], p) else state.elements[i]),
             history := Pushed(state))
    case UpdateElementSpecificField(target, key, value) =>
      state.(elements := seq(|state.elements|, i requires 0 <= i < |state.elements| =>
                          if state.elements[i].id == target then ApplyField(state.elements[i], key, value) else state.elements[i]),
             history := Pushed(state))
    case UpdateMultipleElements(patches) =>
      state.(elements := PatchAll(state.elements, patches), history := Pushed(state))
    case UpdateMultipleElementsWithoutUndoRedo(patches) =>
      state.(elements := PatchAll(state.elements, patches))
    case DuplicateMultipleElements(requests) =>
      Duplicated(state, requests)
    case CreateGroup(g) =>
      state.(groups := state.groups + [g])
    case UpdateGroup(u) =>
      state.(groups := seq(|state.groups|, i requires 0 <= i < |state.groups| =>
                        if state.groups[i].id == u.id then Group(u.id, state.groups[i].attrs + u.attrs) else state.groups[i]))
    case RemoveGroup(groupId) =>
      state.(groups := RemoveGroupId(state.groups, groupId))
    case ChangeBuildMode(mode) =>
      state.(buildMode := mode)
    case Undo =>
      var past, future := state.history.past, state.history.future;
      if |past| == 0 then state
      else past[|past| - 1].(history := History(past[..|past| - 1], future + [state]))
    case Redo =>
      var past, future := state.history.past, state.history.future;
      if |future| == 0 then state
      else future[|future| - 1].(history := History(past + [state], future[..|future| - 1]))
    case CommitUndoRedoHistory =>
      state.(history := Pushed(state))
    case Unknown(_) =>
      state
  }

  /** `groups.filter(group => group.id !== groupId)`. */
  function RemoveGroupId(groups: seq<Group>, groupId: string): (r: seq<Group>)
    ensures |r| <= |groups|
    ensures forall i :: 0 <= i < |r| ==> r[i].id != groupId && r[i] in groups
    ensures forall g :: g in r <==> g in groups && g.id != groupId
    decreases |groups|
  {
    if groups == [] then []
    else
      var init := groups[..|groups| - 1];
      var rest := RemoveGroupId(init, groupId);
      var last := groups[|groups| - 1];
      assert groups == init + [last];
      if last.id == groupId then rest else rest + [last]
  }

  /** Group removal works group by group: filtering a concatenation filters each part, so the order is kept. */
  lemma {:induction false} RemoveGroupIdConcat(a: seq<Group>, b: seq<Group>, groupId: string)
    ensures RemoveGroupId(a + b, groupId) == RemoveGroupId(a, groupId) + RemoveGroupId(b, groupId)
    decreases |b|
  {
    if b == [] {
      assert a + b == a;
    } else {
      var init := b[..|b| - 1];
      assert (a + b)[..|a + b| - 1] == a + init;
      RemoveGroupIdConcat(a, init, groupId);
    }
  }

  /**
   * A group update merges the payload's properties into every group with
   * its id, the payload's winning; no other group changes, and none is
   * added or dropped.
   */
  lemma UpdateGroupOnlyMatching(s: AppState, u: Group)
    ensures var r := Reduce(s, UpdateGroup(u));
      && |r.groups| == |s.groups| && r.elements == s.elements && r.history == s.history
      && forall i :: 0 <= i < |s.groups| ==>
           (s.groups[i].id != u.id ==> r.groups[i] == s.groups[i])
           && (s.groups[i].id == u.id ==>
                 r.groups[i].id == u.id
                 && (forall k :: k in u.attrs ==> k in r.groups[i].attrs && r.groups[i].attrs[k] == u.attrs[k])
                 && (forall k :: k in s.groups[i].attrs && k !in u.attrs ==>
                       k in r.groups[i].attrs && r.groups[i].attrs[k] == s.groups[i].attrs[k]))
  {
  }

  /** One more request extends the id table, its key order and the copies by that request's part. */
  lemma DuplicationStep(elements: seq<Element>, requests: seq<CopyRequest>, i: nat)
    requires i < |requests|
    ensures var pre, r := requests[..i], requests[i];
      var original := Find(elements, r.id);
      && IdMap(elements, requests[..i + 1])
         == (if original.Some? then IdMap(elements, pre)[r.id := r.freshId] else IdMap(elements, pre))
      && Keys(elements, requests[..i + 1])
         == (if original.Some? && r.id !in IdMap(elements, pre) then Keys(elements, pre) + [r.id] else Keys(elements, pre))
      && Copies(elements, requests[..i + 1])
         == (if original.Some? && Copy(original.value, r.freshId).Some?
             then Copies(elements, pre) + [Copy(original.value, r.freshId).value]
             else Copies(elements, pre))
  {
    assert requests[..i + 1][..i] == requests[..i];
  }

  // ---------------------------------------------------------------------
  // Duplication, as the reducer runs it

  /**
   * The first loop of the duplication case: for each requested id that some
   * element has, enter the fresh id in the id table and collect the copy.
   */
  method CollectCopies(elements: seq<Element>, requests: seq<CopyRequest>)
    returns (idMap: map<string, string>, keyOrder: seq<string>, newElements: seq<Element>)
    ensures idMap == IdMap(elements, requests)
    ensures keyOrder == Keys(elements, requests)
    ensures newElements == Copies(elements, requests)
  {
    idMap, keyOrder, newElements := map[], [], [];
    var i := 0;
    while i < |requests|
      invariant 0 <= i <= |requests|
      invariant idMap == IdMap(elements, requests[..i])
      invariant keyOrder == Keys(elements, requests[..i])
      invariant newElements == Copies(elements, requests[..i])
    {
      DuplicationStep(elements, requests, i);
      var original := Find(elements, requests[i].id);
      if original.Some? {
        var o := original.value;
        var newId := requests[i].freshId;
        assert o.id == requests[i].id;
        if o.id !in idMap {
          keyOrder := keyOrder + [o.id];
        }
        idMap := idMap[o.id := newId];
        var copy := Copy(o, newId);
        if copy.Some? {
          newElements := newElements + [copy.value];
        }
      }
      i := i + 1;
    }
    assert requests[..i] == requests;
  }

  /** The second loop: every property of every copy rewritten through the id table. */
  method RewriteCopies(idMap: map<string, string>, newElements: seq<Element>) returns (updatedElements: seq<Element>)
    ensures updatedElements == RemapAll(idMap, newElements)
  {
    updatedElements := [];
    var j := 0;
    while j < |newElements|
      invariant 0 <= j <= |newElements|
      invariant |updatedElements| == j
      invariant forall k :: 0 <= k < j ==> updatedElements[k] == RemapRefs(idMap, newElements[k])
    {
      updatedElements := updatedElements + [RemapRefs(idMap, newElements[j])];
      j := j + 1;
    }
  }

  /** `Object.values(idMap)`, with the keys in insertion order. */
  method ValuesInOrder(idMap: map<string, string>, keyOrder: seq<string>) returns (values: seq<string>)
    requires forall t :: 0 <= t < |keyOrder| ==> keyOrder[t] in idMap
    ensures values == ValuesOf(idMap, keyOrder)
  {
    values := [];
    var k := 0;
    while k < |keyOrder|
      invariant 0 <= k <= |keyOrder|
      invariant |values| == k
      invariant forall t :: 0 <= t < k ==> values[t] == idMap[keyOrder[t]]
    {
      values := values + [idMap[keyOrder[k]]];
      k := k + 1;
    }
  }

  /**
   * The duplication case: the copies and the id table, the copies'
   * references rewritten, and the table's values handed to the selection
   * callback; the old state is pushed onto the undo stack.
   */
  method DuplicateElements(state: AppState, requests: seq<CopyRequest>) returns (next: AppState, selectedIds: seq<string>)
    ensures next == Reduce(state, DuplicateMultipleElements(requests))
    ensures selectedIds == SelectedIds(state.elements, requests)
  {
    var idMap, keyOrder, newElements := CollectCopies(state.elements, requests);
    var updatedElements := RewriteCopies(idMap, newElements);
    selectedIds := ValuesInOrder(idMap, keyOrder);
    next := state.(elements := state.elements + updatedElements,
                   history := History(state.history.past + [state], []));
  }

  // ---------------------------------------------------------------------
  // Properties of the reducer

  /** The actions that push the current state onto the undo stack and clear the redo stack. */
  predicate PushesHistory(a: Action) {
    || a.AddElement? || a.RemoveElements? || a.UpdateElement? || a.UpdateElementSpecificField?
    || a.UpdateMultipleElements? || a.DuplicateMultipleElements? || a.CommitUndoRedoHistory?
  }

  /** The actions that leave the history as it is. */
  predicate KeepsHistory(a: Action) {
    || a.UpdateMultipleElementsWithoutUndoRedo? || a.CreateGroup? || a.UpdateGroup?
    || a.RemoveGroup? || a.ChangeBuildMode? || a.Unknown?
  }

  /** Everything but the history. */
  function Content(s: AppState): AppState {
    s.(history := History([], []))
  }

  /** An edit pushes the old state, clears the redo stack and changes only the elements. */
  lemma EditPushesHistory(s: AppState, a: Action)
    requires PushesHistory(a)
    ensures Reduce(s, a).history == History(s.history.past + [s], [])
    ensures Reduce(s, a) == s.(elements := Reduce(s, a).elements, history := Pushed(s))
  {
  }

  /** The other non-history actions leave the history untouched; an unknown action changes nothing. */
  lemma OtherActionsKeepHistory(s: AppState, a: Action)
    requires KeepsHistory(a)
    ensures Reduce(s, a).history == s.history
    ensures a.Unknown? ==> Reduce(s, a) == s
  {
  }

  /** Loading a state always starts with empty undo and redo stacks. */
  lemma SetStateResetsHistory(s: AppState, payload: Option<AppState>)
    ensures Reduce(s, SetState(payload)).history == History([], [])
    ensures payload.Some? ==> Content(Reduce(s, SetState(payload))) == Content(payload.value)
    ensures payload.None? ==> Content(Reduce(s, SetState(payload))) == Content(s)
  {
  }

  /** Adding appends the new element after the others. */
  lemma AddElementAppends(s: AppState, e: Element)
    ensures var r := Reduce(s, AddElement(e));
      |r.elements| == |s.elements| + 1 && r.elements[..|s.elements|] == s.elements
      && r.elements[|s.elements|] == e
  {
    var r := Reduce(s, AddElement(e));
    assert r.elements[..|s.elements|] == s.elements;
  }

  /** Removal keeps exactly the elements whose id is not listed, in order. */
  lemma {:induction false} RemoveIdsMembers(elements: seq<Element>, ids: seq<string>, e: Element)
    ensures e in RemoveIds(elements, ids) <==> e in elements && e.id !in ids
    decreases |elements|
  {
    if elements != [] {
      var init := elements[..|elements| - 1];
      RemoveIdsMembers(init, ids, e);
      assert elements == init + [elements[|elements| - 1]];
    }
  }

  /** Removal works element by element: filtering a concatenation filters each part. */
  lemma {:induction false} RemoveIdsConcat(a: seq<Element>, b: seq<Element>, ids: seq<string>)
    ensures RemoveIds(a + b, ids) == RemoveIds(a, ids) + RemoveIds(b, ids)
    decreases |b|
  {
    if b == [] {
      assert a + b == a;
    } else {
      var init := b[..|b| - 1];
      assert (a + b)[..|a + b| - 1] == a + init;
      RemoveIdsConcat(a, init, ids);
    }
  }

  /** An element update changes only the elements with the patch's id, and no element count. */
  lemma UpdateElementOnlyMatching(s: AppState, p: Patch)
    ensures var r := Reduce(s, UpdateElement(p));
      && |r.elements| == |s.elements|
      && forall i :: 0 <= i < |s.elements| ==>
           (s.elements[i].id != p.id ==> r.elements[i] == s.elements[i])
           && (s.elements[i].id == p.id ==> r.elements[i] == ApplyPatch(s.elements[i], p))
  {
  }

  /** A single-field update changes only the elements with that id. */
  lemma UpdateFieldOnlyMatching(s: AppState, target: string, key: string, value: FieldValue)
    ensures var r := Reduce(s, UpdateElementSpecificField(target, key, value));
      && |r.elements| == |s.elements|
      && forall i :: 0 <= i < |s.elements| ==>
           (s.elements[i].id != target ==> r.elements[i] == s.elements[i])
           && (s.elements[i].id == target ==> r.elements[i] == ApplyField(s.elements[i], key, value))
  {
  }

  /** A batch update changes only the elements some patch names, each by the first patch naming it. */
  lemma UpdateMultipleOnlyMatching(s: AppState, patches: seq<Patch>)
    ensures var r := Reduce(s, UpdateMultipleElements(patches));
      && |r.elements| == |s.elements|
      && forall i :: 0 <= i < |s.elements| ==>
           ((forall k :: 0 <= k < |patches| ==> patches[k].id != s.elements[i].id) ==> r.elements[i] == s.elements[i])
    ensures Reduce(s, UpdateMultipleElementsWithoutUndoRedo(patches)).elements == Reduce(s, UpdateMultipleElements(patches)).elements
  {
  }

  /** Undo on an empty undo stack and redo on an empty redo stack change nothing. */
  lemma UndoRedoOnEmpty(s: AppState)
    ensures s.history.past == [] ==> Reduce(s, Undo) == s
    ensures s.history.future == [] ==> Reduce(s, Redo) == s
  {
  }

  /** The editor starts empty, with nothing to undo or redo: both are no-ops on the initial state. */
  lemma InitialStateHasNoHistory()
    ensures InitialState.elements == [] && InitialState.groups == []
    ensures Reduce(InitialState, Undo) == InitialState && Reduce(InitialState, Redo) == InitialState
    ensures Reduce(InitialState, SetState(None)) == InitialState
  {
  }

  /** Undo moves one entry from the undo stack to the redo stack, redo the reverse. */
  lemma UndoRedoMoveOneEntry(s: AppState)
    ensures s.history.past != [] ==>
      var r := Reduce(s, Undo);
      |r.history.past| == |s.history.past| - 1 && r.history.future == s.history.future + [s]
    ensures s.history.future != [] ==>
      var r := Reduce(s, Redo);
      r.history.past == s.history.past + [s] && |r.history.future| == |s.history.future| - 1
    ensures |Reduce(s, Undo).history.past| + |Reduce(s, Undo).history.future|
         == |s.history.past| + |s.history.future|
    ensures |Reduce(s, Redo).history.past| + |Reduce(s, Redo).history.future|
         == |s.history.past| + |s.history.future|
  {
  }

  /** Undo right after an edit restores the state before the edit; the edited state is on the redo stack. */
  lemma UndoAfterEdit(s: AppState, a: Action)
    requires PushesHistory(a)
    ensures Reduce(Reduce(s, a), Undo) == s.(history := History(s.history.past, [Reduce(s, a)]))
  {
    var e := Reduce(s, a);
    assert e.history.past == s.history.past + [s];
    assert e.history.past[..|e.history.past| - 1] == s.history.past;
  }

  /**
   * Redo right after undo restores the undone state and the redo stack;
   * the top of the undo stack becomes the state undo produced, which holds
   * the same content as the one that was there.
   */
  lemma RedoAfterUndo(s: AppState)
    requires s.history.past != []
    ensures var u := Reduce(s, Undo);
      var past := s.history.past;
      && Reduce(u, Redo) == s.(history := History(past[..|past| - 1] + [u], s.history.future))
      && Content(u) == Content(past[|past| - 1])
  {
    var u := Reduce(s, Undo);
    var future := s.history.future;
    assert u.history.future == future + [s];
    assert u.history.future[..|u.history.future| - 1] == future;
  }

  // ---------------------------------------------------------------------
  // Properties of duplication

  /** The originals stay in front, unchanged; one rewritten copy follows for every copying request. */
  lemma DuplicateKeepsOriginals(s: AppState, requests: seq<CopyRequest>)
    ensures var r := Reduce(s, DuplicateMultipleElements(requests));
      && |r.elements| == |s.elements| + |Sources(s.elements, requests)|
      && r.elements[..|s.elements|] == s.elements
  {
    CopiesSources(s.elements, requests);
    var r := Reduce(s, DuplicateMultipleElements(requests));
    assert r.elements[..|s.elements|] == s.elements;
  }

  /** The `j`-th copy is the copy of the original of the `j`-th copying request. */
  lemma {:induction false} CopiesSources(elements: seq<Element>, requests: seq<CopyRequest>)
    ensures |Copies(elements, requests)| == |Sources(elements, requests)|
    ensures forall j :: 0 <= j < |Copies(elements, requests)| ==>
      var i := Sources(elements, requests)[j];
      i < |requests| && Copied(elements, requests, i) && Copies(elements, requests)[j] == CopyOf(elements, requests, i)
    decreases |requests|
  {
    if requests != [] {
      var init := requests[..|requests| - 1];
      var n := |requests| - 1;
      CopiesSources(elements, init);
      var src, srcInit := Sources(elements, requests), Sources(elements, init);
      var copies, copiesInit := Copies(elements, requests), Copies(elements, init);
      if Copied(elements, requests, n) {
        assert src == srcInit + [n];
        assert copies == copiesInit + [CopyOf(elements, requests, n)];
      } else {
        assert src == srcInit;
        assert copies == copiesInit;
      }
      forall j | 0 <= j < |srcInit|
        ensures src[j] == srcInit[j] && copies[j] == copiesInit[j]
        ensures CopyOf(elements, init, srcInit[j]) == CopyOf(elements, requests, srcInit[j])
      {
        assert init[srcInit[j]] == requests[srcInit[j]];
      }
    }
  }

  /** A request finds no original, or one of no copyable type: no copy is made for it. */
  lemma UnknownIdsIgnored(elements: seq<Element>, requests: seq<CopyRequest>, i: nat)
    requires i < |requests| && !Copied(elements, requests, i)
    ensures i !in Sources(elements, requests)
  {
  }

  /** The id table holds a key exactly for the requested ids some element has. */
  lemma {:induction false} IdMapDomain(elements: seq<Element>, requests: seq<CopyRequest>, k: string)
    ensures k in IdMap(elements, requests) <==>
      Find(elements, k).Some? && exists i :: 0 <= i < |requests| && requests[i].id == k
    decreases |requests|
  {
    if requests != [] {
      var init := requests[..|requests| - 1];
      var n := |requests| - 1;
      IdMapDomain(elements, init, k);
      if !(requests[n].id == k && Find(elements, k).Some?) {
        if Find(elements, k).Some? && exists i :: 0 <= i < |requests| && requests[i].id == k {
          var i :| 0 <= i < |requests| && requests[i].id == k;
          assert init[i].id == k;
        }
        if k in IdMap(elements, init) {
          var i :| 0 <= i < |init| && init[i].id == k;
          assert requests[i].id == k;
        }
      }
    }
  }

  /** The index of the last request for `k`, if any. */
  function LastRequestFor(requests: seq<CopyRequest>, k: string): (r: Option<nat>)
    ensures r.Some? ==> r.value < |requests| && requests[r.value].id == k
                        && forall t :: r.value < t < |requests| ==> requests[t].id != k
    ensures r.None? ==> forall t :: 0 <= t < |requests| ==> requests[t].id != k
    decreases |requests|
  {
    if requests == [] then None
    else if requests[|requests| - 1].id == k then Some(|requests| - 1)
    else
      var init := requests[..|requests| - 1];
      assert forall t :: 0 <= t < |init| ==> init[t] == requests[t];
      LastRequestFor(init, k)
  }

  /** A key of the id table maps to the fresh id of the last request for it. */
  lemma {:induction false} IdMapValue(elements: seq<Element>, requests: seq<CopyRequest>, k: string)
    requires k in IdMap(elements, requests)
    ensures LastRequestFor(requests, k).Some?
    ensures IdMap(elements, requests)[k] == requests[LastRequestFor(requests, k).value].freshId
    decreases |requests|
  {
    var init := requests[..|requests| - 1];
    var n := |requests| - 1;
    if requests[n].id == k {
      IdMapDomain(elements, init, k);
    } else {
      IdMapValue(elements, init, k);
      assert requests[LastRequestFor(init, k).value] == init[LastRequestFor(init, k).value];
    }
  }

  /**
   * Fresh ids that are not ids of elements stay as they are: every copy
   * keeps its fresh id, its coordinates are its original's moved by 50,
   * and a reference to a duplicated original now names that original's
   * copy, while any other reference is kept.
   */
  lemma DuplicateCopyShape(s: AppState, requests: seq<CopyRequest>, j: nat)
    requires forall i :: 0 <= i < |requests| ==> requests[i].freshId != ""
    requires forall i, e :: 0 <= i < |requests| && e in s.elements ==> requests[i].freshId != e.id
    requires j < |Copies(s.elements, requests)|
    ensures j < |Sources(s.elements, requests)|
    ensures var i := Sources(s.elements, requests)[j];
      var original := Find(s.elements, requests[i].id).value;
      var copy := RemappedCopies(s.elements, requests)[j];
      var m := IdMap(s.elements, requests);
      && copy.id == requests[i].freshId
      && (MovesByPosition(original.kind) ==> copy.x == original.x + 50 && copy.y == original.y + 50)
      && (original.kind == "wall" ==>
            copy.x1 == original.x1 + 50 && copy.y1 == original.y1 + 50
            && copy.x2 == original.x2 + 50 && copy.y2 == original.y2 + 50)
      && (original.attachedTo.Some? && original.attachedTo.value in m ==> copy.attachedTo == Some(m[original.attachedTo.value]))
      && (original.attachedTo.Some? && original.attachedTo.value !in m ==> copy.attachedTo == original.attachedTo)
      && |copy.attachedChairs| == |original.attachedChairs|
      && (forall t :: 0 <= t < |original.attachedChairs| ==>
            copy.attachedChairs[t] == if original.attachedChairs[t] in m then m[original.attachedChairs[t]] else original.attachedChairs[t])
  {
    CopiesSources(s.elements, requests);
    var i := Sources(s.elements, requests)[j];
    var newId := requests[i].freshId;
    var m := IdMap(s.elements, requests);
    IdMapDomain(s.elements, requests, newId);
    assert newId !in m;
    forall k | k in m
      ensures m[k] != ""
    {
      IdMapValue(s.elements, requests, k);
    }
  }

  /** The selection callback gets one new id per duplicated original. */
  lemma SelectedIdsPerOriginal(elements: seq<Element>, requests: seq<CopyRequest>)
    ensures |SelectedIds(elements, requests)| == |Keys(elements, requests)|
    ensures forall t :: 0 <= t < |SelectedIds(elements, requests)| ==>
      SelectedIds(elements, requests)[t] == IdMap(elements, requests)[Keys(elements, requests)[t]]
  {
  }
}
