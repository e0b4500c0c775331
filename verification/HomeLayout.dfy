/** The home page's widget layout: dragging to reorder, and the edits that keep widget ids unique. */
module HomeLayout {
  import opened Sequences

  datatype Widget = Widget(id: string, span: nat)

  datatype WidgetDef = WidgetDef(id: string, defaultSpan: nat)

  const WIDGET_DEFS := [
    WidgetDef("metrics-summary", 2),
    WidgetDef("containers-summary", 1),
    WidgetDef("crosswatch", 2)
  ]

  type Layout = seq<Widget>

  function Without<T>(s: seq<T>, i: nat): seq<T>
    requires i < |s|
  {
    s[..i] + s[i + 1..]
  }

  function Inserted<T>(s: seq<T>, i: nat, x: T): seq<T>
    requires i <= |s|
  {
    s[..i] + [x] + s[i..]
  }

  predicate InRange(l: Layout, i: int) {
    0 <= i < |l|
  }

  /** The layout after `move(from, to)`; out-of-range and idle moves change nothing. */
  function Move(l: Layout, from: int, to: int): Layout {
    if from == to || !InRange(l, from) || !InRange(l, to) then l
    else Inserted(Without(l, from), to, l[from])
  }

  // ---------- Moves ----------

  /** Even an idle move is a removal and an insertion. */
  lemma MoveIs(l: Layout, from: nat, to: nat)
    requires from < |l| && to < |l|
    ensures Move(l, from, to) == Inserted(Without(l, from), to, l[from])
  {
    if from == to {
      assert Inserted(Without(l, from), from, l[from]) == l;
    }
  }

  /** After a move the widget is where it was put, and the others are in the order they were in. */
  lemma MoveSpec(l: Layout, from: nat, to: nat)
    requires from < |l| && to < |l|
    ensures var m := Move(l, from, to);
      |m| == |l| && m[to] == l[from] && Without(m, to) == Without(l, from)
  {
    MoveIs(l, from, to);
    var m := Move(l, from, to);
    assert m[..to] == Without(l, from)[..to] && m[to + 1..] == Without(l, from)[to..];
  }

  /** Out of range, or in place, a move is nothing. */
  lemma MoveNowhere(l: Layout, from: int, to: int)
    requires from == to || from < 0 || to < 0 || from >= |l| || to >= |l|
    ensures Move(l, from, to) == l
  {
  }

  lemma MovesCompose(l: Layout, a: nat, b: nat, c: nat)
    requires a < |l| && b < |l| && c < |l|
    ensures Move(Move(l, a, b), b, c) == Move(l, a, c)
  {
    MoveSpec(l, a, b);
    MoveIs(Move(l, a, b), b, c);
    MoveIs(l, a, c);
  }

  lemma MoveBack(l: Layout, a: nat, b: nat)
    requires a < |l| && b < |l|
    ensures Move(Move(l, a, b), b, a) == l
  {
    MovesCompose(l, a, b, a);
  }

  lemma WithoutCounts<T>(s: seq<T>, i: nat)
    requires i < |s|
    ensures multiset(s) == multiset(Without(s, i)) + multiset{s[i]}
  {
    assert s == s[..i] + [s[i]] + s[i + 1..];
  }

  lemma InsertedCounts<T>(s: seq<T>, i: nat, x: T)
    requires i <= |s|
    ensures multiset(Inserted(s, i, x)) == multiset(s) + multiset{x}
  {
    assert s == s[..i] + s[i..];
  }

  lemma MoveKeepsWidgets(l: Layout, from: int, to: int)
    ensures multiset(Move(l, from, to)) == multiset(l)
  {
    if InRange(l, from) && InRange(l, to) {
      MoveIs(l, from, to);
      WithoutCounts(l, from);
      InsertedCounts(Without(l, from), to, l[from]);
    }
  }

  /** The layout after hovering over these positions, starting a drag at `from`. */
  function Drag(l: Layout, from: int, hovers: seq<int>): Layout
    decreases hovers
  {
    if hovers == [] then l else Drag(Move(l, from, hovers[0]), hovers[0], hovers[1..])
  }

  /** No drag adds or loses a widget, wherever it hovers. */
  lemma {:induction false} DragKeepsWidgets(l: Layout, from: int, hovers: seq<int>)
    ensures multiset(Drag(l, from, hovers)) == multiset(l)
    decreases hovers
  {
    if hovers != [] {
      MoveKeepsWidgets(l, from, hovers[0]);
      DragKeepsWidgets(Move(l, from, hovers[0]), hovers[0], hovers[1..]);
    }
  }

  /** Only the last hover of a drag matters. */
  lemma {:induction false} DragPathIndependent(l: Layout, from: nat, hovers: seq<int>)
    requires from < |l| && hovers != []
    requires forall i :: 0 <= i < |hovers| ==> InRange(l, hovers[i])
    ensures Drag(l, from, hovers) == Move(l, from, hovers[|hovers| - 1])
    decreases |hovers|
  {
    var next := hovers[0];
    MoveSpec(l, from, next);
    if |hovers| > 1 {
      DragPathIndependent(Move(l, from, next), next, hovers[1..]);
      MovesCompose(l, from, next, hovers[|hovers| - 1]);
    }
  }

  // ---------- Edits ----------

  function SetSpan(l: Layout, id: string, span: nat): (r: Layout)
    ensures |r| == |l|
  {
    seq(|l|, i requires 0 <= i < |l| => if l[i].id == id then l[i].(span := span) else l[i])
  }

  function Remove(l: Layout, id: string): Layout {
    if l == [] then [] else (if l[0].id == id then [] else [l[0]]) + Remove(l[1..], id)
  }

  function DefaultSpan(defs: seq<WidgetDef>, id: string): nat {
    if defs == [] then 1 else if defs[0].id == id then defs[0].defaultSpan else DefaultSpan(defs[1..], id)
  }

  function Add(l: Layout, id: string): Layout {
    l + [Widget(id, DefaultSpan(WIDGET_DEFS, id))]
  }

  /** The palette offers the known widgets the layout does not show. */
  predicate Available(l: Layout, id: string) {
    && (exists i :: 0 <= i < |WIDGET_DEFS| && WIDGET_DEFS[i].id == id)
    && forall i :: 0 <= i < |l| ==> l[i].id != id
  }

  /** Resizing changes the one widget with the id, and nothing else; resizing it back restores the layout. */
  lemma SetSpanOne(l: Layout, i: nat, span: nat)
    requires Distinct(l) && i < |l|
    ensures SetSpan(l, l[i].id, span) == l[i := Widget(l[i].id, span)]
    ensures SetSpan(SetSpan(l, l[i].id, span), l[i].id, l[i].span) == l
  {
    var resized := l[i := Widget(l[i].id, span)];
    forall k | 0 <= k < |l|
      ensures SetSpan(l, l[i].id, span)[k] == resized[k]
    {
      assert k < i || k == i || i < k;
    }
  }

  /** Resizing a widget that is not shown changes nothing. */
  lemma SetSpanNone(l: Layout, id: string, span: nat)
    requires forall i :: 0 <= i < |l| ==> l[i].id != id
    ensures SetSpan(l, id, span) == l
  {
  }

  /** An added widget goes to the end, with the span its definition gives it, or 1 if it has none. */
  lemma AddAtEnd(l: Layout, id: string)
    ensures Add(l, "metrics-summary") == l + [Widget("metrics-summary", 2)]
    ensures Add(l, "containers-summary") == l + [Widget("containers-summary", 1)]
    ensures Add(l, "crosswatch") == l + [Widget("crosswatch", 2)]
    ensures id != "metrics-summary" && id != "containers-summary" && id != "crosswatch" ==>
              Add(l, id) == l + [Widget(id, 1)]
  {
    SpanLookup(id);
    SpanLookup("metrics-summary");
    SpanLookup("containers-summary");
    SpanLookup("crosswatch");
    DistinctNames();
  }

  lemma {:induction false} SpanLookup(id: string)
    ensures DefaultSpan(WIDGET_DEFS, id) ==
              if id == "metrics-summary" then 2 else if id == "containers-summary" then 1
              else if id == "crosswatch" then 2 else 1
  {
    var d0, d1, d2 := WIDGET_DEFS[0], WIDGET_DEFS[1], WIDGET_DEFS[2];
    assert WIDGET_DEFS[1..] == [d1, d2] && [d1, d2][1..] == [d2] && [d2][1..] == [];
    assert DefaultSpan([], id) == 1;
    assert DefaultSpan([d2], id) == if id == "crosswatch" then 2 else 1;
    assert DefaultSpan([d1, d2], id) == if id == "containers-summary" then 1 else DefaultSpan([d2], id);
  }

  lemma DistinctNames()
    ensures "metrics-summary" != "containers-summary"
    ensures "metrics-summary" != "crosswatch" && "containers-summary" != "crosswatch"
  {
    assert |"metrics-summary"| == 15 && |"containers-summary"| == 18 && |"crosswatch"| == 10;
  }

  /** The palette offers exactly the three known widgets, each while it is not shown. */
  lemma AvailableIff(l: Layout, id: string)
    ensures Available(l, id) <==>
              && (id == "metrics-summary" || id == "containers-summary" || id == "crosswatch")
              && forall w :: w in l ==> w.id != id
  {
    assert WIDGET_DEFS[0].id == "metrics-summary" && WIDGET_DEFS[1].id == "containers-summary";
    assert WIDGET_DEFS[2].id == "crosswatch" && |WIDGET_DEFS| == 3;
    assert forall i :: 0 <= i < |l| ==> l[i] in l;
  }

  /** Removing takes the one widget with the id out, and leaves the others in their order. */
  lemma {:induction false} RemoveOne(l: Layout, i: nat)
    requires Distinct(l) && i < |l|
    ensures Remove(l, l[i].id) == Without(l, i)
  {
    if i == 0 {
      RemoveNone(l[1..], l[0].id);
      assert Without(l, 0) == l[1..];
    } else {
      RemoveOne(l[1..], i - 1);
      assert Without(l, i) == [l[0]] + Without(l[1..], i - 1);
    }
  }

  lemma {:induction false} RemoveNone(l: Layout, id: string)
    requires forall i :: 0 <= i < |l| ==> l[i].id != id
    ensures Remove(l, id) == l
  {
    if l != [] {
      RemoveNone(l[1..], id);
    }
  }

  /** Removing takes a widget just added off again, and leaves the rest in place. */
  lemma {:induction false} RemoveUndoesAdd(l: Layout, id: string)
    requires Available(l, id)
    ensures Remove(Add(l, id), id) == l
  {
    RemoveEnd(l, Widget(id, DefaultSpan(WIDGET_DEFS, id)));
  }

  lemma {:induction false} RemoveEnd(l: Layout, w: Widget)
    requires forall i :: 0 <= i < |l| ==> l[i].id != w.id
    ensures Remove(l + [w], w.id) == l
  {
    if l == [] {
      assert [w][1..] == [];
    } else {
      assert (l + [w])[1..] == l[1..] + [w];
      RemoveEnd(l[1..], w);
    }
  }

  datatype Action =
    | DoMove(from: int, to: int)
    | DoSetSpan(id: string, span: nat)
    | DoRemove(id: string)
    | DoAdd(id: string)

  /** The page offers the action: spans are 1 or 2, and only available widgets can be added. */
  predicate Offered(l: Layout, a: Action) {
    match a
    case DoSetSpan(_, span) => span == 1 || span == 2
    case DoAdd(id) => Available(l, id)
    case _ => true
  }

  function Perform(l: Layout, a: Action): Layout {
    match a
    case DoMove(from, to) => Move(l, from, to)
    case DoSetSpan(id, span) => SetSpan(l, id, span)
    case DoRemove(id) => Remove(l, id)
    case DoAdd(id) => Add(l, id)
  }

  predicate CanPerform(l: Layout, actions: seq<Action>)
    decreases actions
  {
    actions == [] || (Offered(l, actions[0]) && CanPerform(Perform(l, actions[0]), actions[1..]))
  }

  function PerformAll(l: Layout, actions: seq<Action>): Layout
    decreases actions
  {
    if actions == [] then l else PerformAll(Perform(l, actions[0]), actions[1..])
  }

  /** Every widget is shown once, narrow or wide. */
  ghost predicate Distinct(l: Layout) {
    && (forall i :: 0 <= i < |l| ==> l[i].span == 1 || l[i].span == 2)
    && (forall i, j :: 0 <= i < j < |l| ==> l[i].id != l[j].id)
  }

  lemma WithoutDistinct(l: Layout, i: nat)
    requires Distinct(l) && i < |l|
    ensures Distinct(Without(l, i))
    ensures forall k :: 0 <= k < |Without(l, i)| ==> Without(l, i)[k].id != l[i].id
  {
  }

  lemma InsertedDistinct(l: Layout, i: nat, w: Widget)
    requires Distinct(l) && i <= |l| && (w.span == 1 || w.span == 2)
    requires forall k :: 0 <= k < |l| ==> l[k].id != w.id
    ensures Distinct(Inserted(l, i, w))
  {
  }

  lemma MoveKeepsDistinct(l: Layout, from: int, to: int)
    requires Distinct(l)
    ensures Distinct(Move(l, from, to))
  {
    if InRange(l, from) && InRange(l, to) {
      MoveIs(l, from, to);
      WithoutDistinct(l, from);
      InsertedDistinct(Without(l, from), to, l[from]);
    }
  }

  lemma {:induction false} RemoveKeepsDistinct(l: Layout, id: string)
    requires Distinct(l)
    ensures Distinct(Remove(l, id))
    ensures forall w :: w in Remove(l, id) <==> w in l && w.id != id
  {
    if l != [] {
      assert l == [l[0]] + l[1..];
      RemoveKeepsDistinct(l[1..], id);
      var r := Remove(l[1..], id);
      assert forall i :: 0 <= i < |r| ==> r[i] in r;
      assert forall w :: w in l[1..] ==> w.id != l[0].id;
    }
  }

  lemma ActionKeepsDistinct(l: Layout, a: Action)
    requires Distinct(l) && Offered(l, a)
    ensures Distinct(Perform(l, a))
  {
    match a {
      case DoMove(from, to) => MoveKeepsDistinct(l, from, to);
      case DoSetSpan(_, _) =>
      case DoRemove(id) => RemoveKeepsDistinct(l, id);
      case DoAdd(id) =>
    }
  }

  /** No run of actions the page offers ever shows a widget twice. */
  lemma {:induction false} IdsStayUnique(l: Layout, actions: seq<Action>)
    requires Distinct(l) && CanPerform(l, actions)
    ensures Distinct(PerformAll(l, actions))
    decreases actions
  {
    if actions != [] {
      ActionKeepsDistinct(l, actions[0]);
      IdsStayUnique(Perform(l, actions[0]), actions[1..]);
    }
  }

  /** Nor does any run of moves, in range or not. */
  lemma {:induction false} MovesKeepWidgets(l: Layout, actions: seq<Action>)
    requires forall i :: 0 <= i < |actions| ==> actions[i].DoMove?
    ensures multiset(PerformAll(l, actions)) == multiset(l)
    decreases actions
  {
    if actions != [] {
      MoveKeepsWidgets(l, actions[0].from, actions[0].to);
      MovesKeepWidgets(Perform(l, actions[0]), actions[1..]);
    }
  }

  // ---------- The page ----------

  class HomePage {
    var layout: Layout
    var dragIndex: Option<int>

    constructor (layout: Layout)
      ensures this.layout == layout && dragIndex == None
    {
      this.layout := layout;
      dragIndex := None;
    }

    /** The copy is spliced twice: the widget out, then in. */
    method MoveWidget(from: int, to: int)
      modifies this`layout
      ensures layout == Move(old(layout), from, to)
    {
      if from == to || from < 0 || to < 0 || from >= |layout| || to >= |layout| {
        return;
      }
      var next := layout;
      var item := next[from];
      next := next[..from] + next[from + 1..];
      next := next[..to] + [item] + next[to..];
      layout := next;
    }

    method DragStart(i: int)
      modifies this`dragIndex
      ensures dragIndex == Some(i)
    {
      dragIndex := Some(i);
    }

    method DragEnd()
      modifies this`dragIndex
      ensures dragIndex == None
    {
      dragIndex := None;
    }

    method DragOver(editing: bool, i: int)
      modifies this
      ensures !editing || old(dragIndex) == None ==> layout == old(layout) && dragIndex == old(dragIndex)
      ensures editing && old(dragIndex).Some? ==>
                layout == Move(old(layout), old(dragIndex).value, i) && dragIndex == Some(i)
    {
      if !editing || dragIndex == None {
        return;
      }
      if dragIndex.value != i {
        MoveWidget(dragIndex.value, i);
        dragIndex := Some(i);
      }
    }

    /** A whole drag, each hover seeing the layout as rendered after the one before. */
    method DragAcross(from: int, hovers: seq<int>)
      requires InRange(layout, from) && forall i :: 0 <= i < |hovers| ==> InRange(layout, hovers[i])
      modifies this
      ensures dragIndex == None
      ensures layout == if hovers == [] then old(layout) else Move(old(layout), from, hovers[|hovers| - 1])
    {
      DragStart(from);
      for k := 0 to |hovers|
        invariant dragIndex == Some(if k == 0 then from else hovers[k - 1])
        invariant |layout| == |old(layout)|
        invariant layout == Move(old(layout), from, if k == 0 then from else hovers[k - 1])
      {
        var at := if k == 0 then from else hovers[k - 1];
        MovesCompose(old(layout), from, at, hovers[k]);
        MoveSpec(old(layout), from, hovers[k]);
        DragOver(true, hovers[k]);
      }
      DragEnd();
    }
  }
}
