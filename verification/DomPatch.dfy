/**
 Drawing nodes into a parent in place (app/ui/dom.js, patch and opens): what comes out the same stays
 where it is. Every node has an identity of its own; the keyboard, a press and a handler are a node's.
 */
module DomPatch {
  type Id = nat

  /** A text (or any node that is no element), or an element's tag and attributes. */
  datatype Markup = Text(text: string) | Element(tag: string, attributes: map<string, string>)

  /** A node and all that is in it. */
  datatype Tree = Tree(id: Id, markup: Markup, kids: seq<Tree>)

  // ---------------------------------------------------------------------------------------
  // What comes out
  // ---------------------------------------------------------------------------------------

  /** The same markup, whichever nodes it is of. */
  predicate Same(a: Tree, b: Tree) {
    a.markup == b.markup && SameAll(a.kids, b.kids)
  }

  predicate SameAll(a: seq<Tree>, b: seq<Tree>) {
    |a| == |b| && (a == [] || (Same(a[0], b[0]) && SameAll(a[1..], b[1..])))
  }

  predicate OnlyElements(trees: seq<Tree>) {
    forall i :: 0 <= i < |trees| ==> trees[i].markup.Element?
  }

  predicate IsButton(markup: Markup) {
    markup.Element? && markup.tag == "BUTTON"
  }

  /** Whether an element is drawn inside rather than replaced. */
  predicate AreOpened(shown: Tree, node: Tree) {
    && shown.markup == node.markup && !IsButton(shown.markup)
    && OnlyElements(shown.kids) && OnlyElements(node.kids)
  }

  function PatchedOne(shown: Tree, node: Tree): Tree
    decreases node, 0
  {
    if Same(shown, node) then shown
    else if AreOpened(shown, node) then shown.(kids := Patched(shown.kids, node.kids))
    else node
  }

  /** What `shown` becomes once `nodes` are drawn into it. */
  function Patched(shown: seq<Tree>, nodes: seq<Tree>): (after: seq<Tree>)
    ensures |after| == |nodes|
    decreases nodes, 1
  {
    if nodes == [] then []
    else if shown == [] then nodes
    else [PatchedOne(shown[0], nodes[0])] + Patched(shown[1..], nodes[1..])
  }

  /** Of a parent's children, those that are elements; drawing counts no others. */
  function Elements(trees: seq<Tree>): seq<Tree> {
    if trees == [] then []
    else if trees[0].markup.Element? then [trees[0]] + Elements(trees[1..])
    else Elements(trees[1..])
  }

  function Texts(trees: seq<Tree>): seq<Tree> {
    if trees == [] then []
    else if trees[0].markup.Text? then [trees[0]] + Texts(trees[1..])
    else Texts(trees[1..])
  }

  /** Elements in the places of those in `all`, what is over at the end; elements of `all` with none left go. */
  function Woven(all: seq<Tree>, elements: seq<Tree>): seq<Tree> {
    if all == [] then elements
    else if all[0].markup.Text? then [all[0]] + Woven(all[1..], elements)
    else if elements == [] then Woven(all[1..], [])
    else [elements[0]] + Woven(all[1..], elements[1..])
  }

  /** What a parent's children become once `nodes` are drawn into it. */
  function PatchedAmong(all: seq<Tree>, nodes: seq<Tree>): seq<Tree> {
    Woven(all, Patched(Elements(all), nodes))
  }

  lemma {:induction false} OnlyElementsAre(elements: seq<Tree>)
    requires OnlyElements(elements)
    ensures Elements(elements) == elements && Texts(elements) == []
  {
    if elements != [] {
      OnlyElementsAre(elements[1..]);
    }
  }

  lemma {:induction false} ElementsAreOnly(all: seq<Tree>)
    ensures OnlyElements(Elements(all))
  {
    if all != [] {
      ElementsAreOnly(all[1..]);
    }
  }

  lemma {:induction false} WovenParts(all: seq<Tree>, elements: seq<Tree>)
    requires OnlyElements(elements)
    ensures Elements(Woven(all, elements)) == elements && Texts(Woven(all, elements)) == Texts(all)
  {
    if all == [] {
      OnlyElementsAre(elements);
    } else if all[0].markup.Text? || elements == [] {
      WovenParts(all[1..], elements);
    } else {
      WovenParts(all[1..], elements[1..]);
    }
  }

  lemma {:induction false} PatchedElements(shown: seq<Tree>, nodes: seq<Tree>)
    requires OnlyElements(shown) && OnlyElements(nodes)
    ensures OnlyElements(Patched(shown, nodes))
    decreases nodes
  {
    hide Same;
    if shown != [] && nodes != [] {
      PatchedElements(shown[1..], nodes[1..]);
    }
  }

  /** The elements are drawn as by themselves, and the texts between them stay. */
  lemma TextsStay(all: seq<Tree>, nodes: seq<Tree>)
    requires OnlyElements(nodes)
    ensures Elements(PatchedAmong(all, nodes)) == Patched(Elements(all), nodes)
    ensures Texts(PatchedAmong(all, nodes)) == Texts(all)
  {
    hide Elements, Texts, Woven, Patched, OnlyElements;
    ElementsAreOnly(all);
    PatchedElements(Elements(all), nodes);
    WovenParts(all, Patched(Elements(all), nodes));
  }

  lemma {:induction false} WovenPlaces(all: seq<Tree>, elements: seq<Tree>)
    requires OnlyElements(elements) && |elements| >= |Elements(all)|
    ensures var woven := Woven(all, elements);
            && |woven| == |all| + |elements| - |Elements(all)|
            && (forall i :: 0 <= i < |all| && all[i].markup.Text? ==> woven[i] == all[i])
            && (forall i :: 0 <= i < |woven| && (i < |all| ==> all[i].markup.Element?) ==> woven[i].markup.Element?)
    decreases |all|
  {
    if all != [] {
      if all[0].markup.Text? {
        WovenPlaces(all[1..], elements);
      } else {
        WovenPlaces(all[1..], elements[1..]);
      }
    }
  }

  /** Where no fewer elements are drawn than there were, each text keeps its place, and each element's is an element's. */
  lemma TextsKeepTheirPlaces(all: seq<Tree>, nodes: seq<Tree>)
    requires OnlyElements(nodes) && |nodes| >= |Elements(all)|
    ensures var after := PatchedAmong(all, nodes);
            && |after| == |all| + |nodes| - |Elements(all)|
            && (forall i :: 0 <= i < |all| && all[i].markup.Text? ==> after[i] == all[i])
            && (forall i :: 0 <= i < |after| && (i < |all| ==> all[i].markup.Element?) ==> after[i].markup.Element?)
  {
    ElementsAreOnly(all);
    PatchedElements(Elements(all), nodes);
    WovenPlaces(all, Patched(Elements(all), nodes));
  }

  lemma {:induction false} SameItself(t: Tree)
    ensures Same(t, t)
    decreases t, 0
  {
    SameAllThemselves(t.kids);
  }

  lemma {:induction false} SameAllThemselves(trees: seq<Tree>)
    ensures SameAll(trees, trees)
    decreases trees, 1
  {
    if trees != [] {
      SameItself(trees[0]);
      SameAllThemselves(trees[1..]);
    }
  }

  lemma {:induction false} PatchedOneIsSame(shown: Tree, node: Tree)
    ensures Same(PatchedOne(shown, node), node)
    decreases node, 0
  {
    SameItself(node);
    if AreOpened(shown, node) {
      PatchedIsSame(shown.kids, node.kids);
    }
  }

  /** What comes out is what replacing everything would give. */
  lemma {:induction false} PatchedIsSame(shown: seq<Tree>, nodes: seq<Tree>)
    ensures SameAll(Patched(shown, nodes), nodes)
    decreases nodes, 1
  {
    hide AreOpened;
    if nodes == [] {
    } else if shown == [] {
      SameAllThemselves(nodes);
    } else {
      PatchedOneIsSame(shown[0], nodes[0]);
      PatchedIsSame(shown[1..], nodes[1..]);
      assert Patched(shown, nodes)[1..] == Patched(shown[1..], nodes[1..]);
    }
  }

  lemma {:induction false} PatchedAt(shown: seq<Tree>, nodes: seq<Tree>, at: nat)
    requires at < |nodes|
    ensures Patched(shown, nodes)[at] ==
            if at < |shown| then PatchedOne(shown[at], nodes[at]) else nodes[at]
  {
    if shown != [] && at > 0 {
      PatchedAt(shown[1..], nodes[1..], at - 1);
    }
  }

  /** What came out the same at its place is the very nodes that were there. */
  lemma SameStays(shown: seq<Tree>, nodes: seq<Tree>, at: nat)
    requires at < |shown| && at < |nodes| && Same(shown[at], nodes[at])
    ensures Patched(shown, nodes)[at] == shown[at]
  {
    PatchedAt(shown, nodes, at);
  }

  /** What there is to see of a node, whichever it is: its markup, and what is in it. */
  datatype Look = Look(markup: Markup, kids: seq<Look>)

  function LookOf(t: Tree): Look
    decreases t, 0
  {
    Look(t.markup, LooksOf(t.kids))
  }

  function LooksOf(trees: seq<Tree>): (looks: seq<Look>)
    ensures |looks| == |trees|
    decreases trees, 1
  {
    if trees == [] then [] else [LookOf(trees[0])] + LooksOf(trees[1..])
  }

  lemma {:induction false} SameIsLook(a: Tree, b: Tree)
    ensures Same(a, b) <==> LookOf(a) == LookOf(b)
    decreases a, 0
  {
    SameAllAreLooks(a.kids, b.kids);
  }

  lemma {:induction false} SameAllAreLooks(a: seq<Tree>, b: seq<Tree>)
    ensures SameAll(a, b) <==> LooksOf(a) == LooksOf(b)
    decreases a, 1
  {
    if a != [] && b != [] {
      SameIsLook(a[0], b[0]);
      SameAllAreLooks(a[1..], b[1..]);
      assert LooksOf(a)[0] == LookOf(a[0]) && LooksOf(a)[1..] == LooksOf(a[1..]);
      assert LooksOf(b)[0] == LookOf(b[0]) && LooksOf(b)[1..] == LooksOf(b[1..]);
    }
  }

  /** What there is to see after is what replacing everything would show. */
  lemma PatchedLooks(shown: seq<Tree>, nodes: seq<Tree>)
    ensures LooksOf(Patched(shown, nodes)) == LooksOf(nodes)
  {
    PatchedIsSame(shown, nodes);
    SameAllAreLooks(Patched(shown, nodes), nodes);
  }

  /** Whether an element's node stays, with what is in it drawn anew: of its own kind, no button, no text in either. */
  predicate StaysOpen(shown: Tree, node: Tree) {
    && shown.markup == node.markup && !(shown.markup.Element? && shown.markup.tag == "BUTTON")
    && forall kid :: kid in shown.kids + node.kids ==> kid.markup.Element?
  }

  /**
   At its place a node that looks the same stays with all in it; one that differs stays itself, what is in
   it drawn in turn, exactly where it can be opened; any other gives way to the new one.
   */
  lemma DrawnAtItsPlace(shown: seq<Tree>, nodes: seq<Tree>, at: nat)
    requires at < |nodes|
    ensures var after := Patched(shown, nodes)[at];
            if at >= |shown| then after == nodes[at]
            else if LookOf(shown[at]) == LookOf(nodes[at]) then after == shown[at]
            else if StaysOpen(shown[at], nodes[at])
            then after == Tree(shown[at].id, shown[at].markup, Patched(shown[at].kids, nodes[at].kids))
            else after == nodes[at]
  {
    PatchedAt(shown, nodes, at);
    if at < |shown| {
      SameIsLook(shown[at], nodes[at]);
      OpenedIsStaying(shown[at], nodes[at]);
      hide Same, Patched, AreOpened, StaysOpen, LookOf;
    }
  }

  lemma OpenedIsStaying(shown: Tree, node: Tree)
    ensures AreOpened(shown, node) <==> StaysOpen(shown, node)
  {
    var kids := shown.kids + node.kids;
    if StaysOpen(shown, node) {
      assert forall i :: 0 <= i < |shown.kids| ==> shown.kids[i] in kids;
      assert forall i :: 0 <= i < |node.kids| ==> node.kids[i] in kids;
    }
  }

  /** `t` is one of `trees`, or somewhere in one. */
  predicate Within(t: Tree, trees: seq<Tree>) {
    trees != [] && (t == trees[0] || Within(t, trees[0].kids) || Within(t, trees[1..]))
  }

  lemma {:induction false} WithinOne(t: Tree, trees: seq<Tree>, at: nat)
    requires at < |trees| && (t == trees[at] || Within(t, trees[at].kids))
    ensures Within(t, trees)
  {
    if at > 0 {
      WithinOne(t, trees[1..], at - 1);
    }
  }

  lemma {:induction false} ButtonsOfOne(shown: Tree, node: Tree, button: Tree)
    requires IsButton(button.markup)
    requires button == PatchedOne(shown, node) || Within(button, PatchedOne(shown, node).kids)
    ensures button == shown || Within(button, shown.kids) || button == node || Within(button, node.kids)
    decreases node, 0
  {
    if !Same(shown, node) && AreOpened(shown, node) {
      ButtonsAreWhole(shown.kids, node.kids, button);
    }
  }

  /** Every button that comes out is an unchanged one, or a new one with all it came with. */
  lemma {:induction false} ButtonsAreWhole(shown: seq<Tree>, nodes: seq<Tree>, button: Tree)
    requires IsButton(button.markup) && Within(button, Patched(shown, nodes))
    ensures Within(button, shown) || Within(button, nodes)
    decreases nodes, 1
  {
    hide AreOpened, Same, PatchedOne;
    if shown != [] && nodes != [] {
      var out := Patched(shown, nodes);
      assert out[1..] == Patched(shown[1..], nodes[1..]);
      if button == out[0] || Within(button, out[0].kids) {
        ButtonsOfOne(shown[0], nodes[0], button);
      } else {
        ButtonsAreWhole(shown[1..], nodes[1..], button);
      }
    }
  }

  /** Drawn again as it is, nothing changes: every node stays. */
  lemma {:induction false} NothingToDraw(shown: seq<Tree>, nodes: seq<Tree>)
    requires SameAll(shown, nodes)
    ensures Patched(shown, nodes) == shown
    decreases nodes
  {
    hide AreOpened, Same;
    if nodes != [] {
      NothingToDraw(shown[1..], nodes[1..]);
      assert shown == [shown[0]] + shown[1..];
    }
  }

  // ---------------------------------------------------------------------------------------
  // Trees as a document holds them
  // ---------------------------------------------------------------------------------------

  type Kids = map<Id, seq<Id>>

  function RootsOf(trees: seq<Tree>): (ids: seq<Id>)
    ensures |ids| == |trees|
    ensures forall i :: 0 <= i < |trees| ==> ids[i] == trees[i].id
  {
    if trees == [] then [] else [trees[0].id] + RootsOf(trees[1..])
  }

  function Ids(t: Tree): set<Id> {
    {t.id} + IdsOf(t.kids)
  }

  function IdsOf(trees: seq<Tree>): set<Id> {
    if trees == [] then {} else Ids(trees[0]) + IdsOf(trees[1..])
  }

  /** The document holds `t`: its nodes with their markup, each with its children in order. */
  predicate Holds(kids: Kids, markup: map<Id, Markup>, t: Tree) {
    && t.id in kids && kids[t.id] == RootsOf(t.kids)
    && t.id in markup && markup[t.id] == t.markup
    && HoldsAll(kids, markup, t.kids)
  }

  predicate HoldsAll(kids: Kids, markup: map<Id, Markup>, trees: seq<Tree>) {
    trees == [] || (Holds(kids, markup, trees[0]) && HoldsAll(kids, markup, trees[1..]))
  }

  /** No node is in two places of a tree, or of two trees. */
  predicate Apart(trees: seq<Tree>) {
    trees == [] || (Simple(trees[0]) && Apart(trees[1..]) && Ids(trees[0]) !! IdsOf(trees[1..]))
  }

  predicate Simple(t: Tree) {
    t.id !in IdsOf(t.kids) && Apart(t.kids)
  }

  lemma {:induction false} OneOf(trees: seq<Tree>, at: nat)
    requires at < |trees|
    ensures Ids(trees[at]) <= IdsOf(trees)
  {
    if at > 0 {
      OneOf(trees[1..], at - 1);
    }
  }

  lemma {:induction false} HoldsOneOf(kids: Kids, markup: map<Id, Markup>, trees: seq<Tree>, at: nat)
    requires HoldsAll(kids, markup, trees) && at < |trees|
    ensures Holds(kids, markup, trees[at])
  {
    if at > 0 {
      HoldsOneOf(kids, markup, trees[1..], at - 1);
    }
  }

  lemma {:induction false} HoldsEach(kids: Kids, markup: map<Id, Markup>, trees: seq<Tree>)
    requires forall i :: 0 <= i < |trees| ==> Holds(kids, markup, trees[i])
    ensures HoldsAll(kids, markup, trees)
  {
    hide Holds;
    if trees != [] {
      forall i | 0 <= i < |trees[1..]| ensures Holds(kids, markup, trees[1..][i]) {
        assert trees[1..][i] == trees[i + 1];
      }
      HoldsEach(kids, markup, trees[1..]);
    }
  }

  lemma {:induction false} ApartOnes(trees: seq<Tree>, i: nat, j: nat)
    requires Apart(trees) && i < |trees| && j < |trees|
    ensures Simple(trees[i]) && (i != j ==> Ids(trees[i]) !! Ids(trees[j]))
  {
    hide Simple;
    if i > 0 && j > 0 {
      ApartOnes(trees[1..], i - 1, j - 1);
    } else if i > 0 {
      OneOf(trees[1..], i - 1);
      ApartOnes(trees[1..], i - 1, i - 1);
    } else if j > 0 {
      OneOf(trees[1..], j - 1);
    }
  }

  /** A document changed outside a tree holds it still. */
  lemma {:induction false} HoldsStill(was: Kids, now: Kids, markup: map<Id, Markup>, t: Tree)
    requires Holds(was, markup, t)
    requires forall id :: id in Ids(t) && id in was ==> id in now && now[id] == was[id]
    ensures Holds(now, markup, t)
    decreases t, 0
  {
    HoldAllStill(was, now, markup, t.kids);
  }

  lemma {:induction false} HoldAllStill(was: Kids, now: Kids, markup: map<Id, Markup>, trees: seq<Tree>)
    requires HoldsAll(was, markup, trees)
    requires forall id :: id in IdsOf(trees) && id in was ==> id in now && now[id] == was[id]
    ensures HoldsAll(now, markup, trees)
    decreases trees, 1
  {
    if trees != [] {
      HoldsStill(was, now, markup, trees[0]);
      HoldAllStill(was, now, markup, trees[1..]);
    }
  }

  /** A node's children in a tree are of that tree, under its root. */
  lemma {:induction false} ChildrenWithin(kids: Kids, markup: map<Id, Markup>, t: Tree, id: Id, child: Id)
    requires Holds(kids, markup, t) && id in Ids(t) && id in kids && child in kids[id]
    ensures child in IdsOf(t.kids)
    decreases t, 0
  {
    if id == t.id {
      var i :| 0 <= i < |t.kids| && t.kids[i].id == child;
      OneOf(t.kids, i);
    } else {
      ChildrenWithinAll(kids, markup, t.kids, id, child);
    }
  }

  lemma {:induction false} ChildrenWithinAll(
    kids: Kids, markup: map<Id, Markup>, trees: seq<Tree>, id: Id, child: Id)
    requires HoldsAll(kids, markup, trees) && id in IdsOf(trees) && id in kids && child in kids[id]
    ensures child in IdsOf(trees)
    decreases trees, 1
  {
    if id in Ids(trees[0]) {
      ChildrenWithin(kids, markup, trees[0], id, child);
    } else {
      ChildrenWithinAll(kids, markup, trees[1..], id, child);
    }
  }

  predicate Clear(children: seq<Id>, moved: set<Id>) {
    forall child :: child in children ==> child !in moved
  }

  /** Only what is touched, and where something moved was, is not as it was. */
  predicate Frame(was: Kids, now: Kids, touched: set<Id>, moved: set<Id>) {
    && was.Keys == now.Keys
    && forall id :: id in was && id !in touched && Clear(was[id], moved) ==> now[id] == was[id]
  }

  lemma FrameOfTwo(a: Kids, b: Kids, c: Kids, touched: set<Id>, moved: set<Id>)
    requires Frame(a, b, touched, moved) && Frame(b, c, touched, moved)
    ensures Frame(a, c, touched, moved)
  {
  }

  lemma FrameWider(a: Kids, b: Kids, touched: set<Id>, moved: set<Id>, more: set<Id>, others: set<Id>)
    requires Frame(a, b, touched, moved) && touched <= more && moved <= others
    ensures Frame(a, b, more, others)
  {
    forall id | id in a && id !in more && Clear(a[id], others) ensures b[id] == a[id] {
      assert Clear(a[id], moved);
    }
  }

  /** A tree apart from what was touched and moved is held still. */
  lemma FrameHolds(
    was: Kids, now: Kids, markup: map<Id, Markup>, t: Tree, touched: set<Id>, moved: set<Id>)
    requires Holds(was, markup, t) && Frame(was, now, touched, moved)
    requires Ids(t) !! touched && Ids(t) !! moved
    ensures Holds(now, markup, t)
  {
    forall id | id in Ids(t) && id in was
      ensures id in now && now[id] == was[id]
    {
      forall child | child in was[id] ensures child !in moved {
        ChildrenWithin(was, markup, t, id, child);
      }
      assert Clear(was[id], moved);
    }
    HoldsStill(was, now, markup, t);
  }

  lemma {:induction false} PatchedOneIds(shown: Tree, node: Tree)
    ensures Ids(PatchedOne(shown, node)) <= Ids(shown) + Ids(node)
    decreases node, 0
  {
    hide AreOpened, Same;
    if !Same(shown, node) && AreOpened(shown, node) {
      PatchedIds(shown.kids, node.kids);
    }
  }

  lemma {:induction false} PatchedIds(shown: seq<Tree>, nodes: seq<Tree>)
    ensures IdsOf(Patched(shown, nodes)) <= IdsOf(shown) + IdsOf(nodes)
    decreases nodes, 1
  {
    hide Ids, PatchedOne;
    if shown != [] && nodes != [] {
      PatchedOneIds(shown[0], nodes[0]);
      PatchedIds(shown[1..], nodes[1..]);
      assert Patched(shown, nodes)[1..] == Patched(shown[1..], nodes[1..]);
    }
  }

  /** Each node drawn is the one already at its place, or is in no tree there. */
  predicate Fresh(shown: seq<Tree>, nodes: seq<Tree>) {
    forall i :: 0 <= i < |nodes| ==>
      (i < |shown| && nodes[i] == shown[i]) || Ids(nodes[i]) !! IdsOf(shown)
  }

  lemma {:induction false} FreshOne(shown: seq<Tree>, nodes: seq<Tree>, node: Tree)
    requires Fresh(shown, nodes) && Apart(shown) && Apart([node] + shown)
    requires forall i :: 0 <= i < |nodes| && !(i < |shown| && nodes[i] == shown[i]) ==> Ids(nodes[i]) !! Ids(node)
    ensures Ids(node) !! IdsOf(nodes)
    decreases nodes
  {
    hide Ids, Simple;
    if nodes != [] {
      assert ([node] + shown)[1..] == shown;
      if shown == [] {
        FreshOne([], nodes[1..], node);
      } else {
        var less := shown[1..];
        assert ([node] + less)[1..] == less;
        forall i | 0 <= i < |nodes[1..]| && !(i < |less| && nodes[1..][i] == less[i])
          ensures Ids(nodes[1..][i]) !! Ids(node) && Ids(nodes[1..][i]) !! IdsOf(less)
        {
          assert nodes[1..][i] == nodes[i + 1];
        }
        FreshOne(less, nodes[1..], node);
      }
    }
  }

  /** Where they are fresh, two heads and two tails are apart. */
  lemma FreshHeads(shown: seq<Tree>, nodes: seq<Tree>)
    requires Apart(shown) && Apart(nodes) && Fresh(shown, nodes) && shown != [] && nodes != []
    ensures nodes[0] == shown[0] || Ids(nodes[0]) !! Ids(shown[0])
    ensures Ids(nodes[0]) !! IdsOf(shown[1..]) && Ids(shown[0]) !! IdsOf(nodes[1..])
    ensures Fresh(shown[1..], nodes[1..])
  {
    hide Ids, Simple;
    forall i | 0 <= i < |nodes[1..]|
      ensures (i < |shown[1..]| && nodes[1..][i] == shown[1..][i])
              || (Ids(nodes[1..][i]) !! IdsOf(shown[1..]) && Ids(nodes[1..][i]) !! Ids(shown[0]))
    {
      assert nodes[1..][i] == nodes[i + 1];
    }
    assert [shown[0]] + shown[1..] == shown;
    FreshOne(shown[1..], nodes[1..], shown[0]);
  }

  lemma {:induction false} PatchedOneIsSimple(shown: Tree, node: Tree)
    requires Simple(shown) && Simple(node) && (shown == node || Ids(shown) !! Ids(node))
    ensures Simple(PatchedOne(shown, node))
    decreases node, 0
  {
    SameItself(node);
    hide AreOpened, Same;
    if !Same(shown, node) && AreOpened(shown, node) {
      PatchedIds(shown.kids, node.kids);
      KidsAreFresh(shown.kids, node.kids);
      PatchedAreApart(shown.kids, node.kids);
    }
  }

  lemma KidsAreFresh(shown: seq<Tree>, nodes: seq<Tree>)
    requires IdsOf(shown) !! IdsOf(nodes)
    ensures Fresh(shown, nodes)
  {
    hide Ids, IdsOf;
    forall i | 0 <= i < |nodes| ensures Ids(nodes[i]) !! IdsOf(shown) {
      OneOf(nodes, i);
    }
  }

  /** What comes out of the elements has no node in two places. */
  lemma {:induction false} PatchedAreApart(shown: seq<Tree>, nodes: seq<Tree>)
    requires Apart(shown) && Apart(nodes) && Fresh(shown, nodes)
    ensures Apart(Patched(shown, nodes))
    decreases nodes, 1
  {
    hide Ids, Simple, PatchedOne, Fresh;
    if shown != [] && nodes != [] {
      FreshHeads(shown, nodes);
      PatchedOneIsSimple(shown[0], nodes[0]);
      PatchedOneIds(shown[0], nodes[0]);
      PatchedIds(shown[1..], nodes[1..]);
      PatchedAreApart(shown[1..], nodes[1..]);
      assert Patched(shown, nodes)[1..] == Patched(shown[1..], nodes[1..]);
    }
  }

  function Without(ids: seq<Id>, id: Id): (rest: seq<Id>)
    ensures id !in rest
    ensures forall other :: other in rest <==> other in ids && other != id
    ensures id !in ids ==> rest == ids
  {
    if ids == [] then []
    else if ids[0] == id then Without(ids[1..], id)
    else [ids[0]] + Without(ids[1..], id)
  }

  /** The children of every node, `id` taken out of wherever it is. */
  function Detached(kids: Kids, id: Id): Kids {
    map parent | parent in kids :: Without(kids[parent], id)
  }

  /** What stays of `t` in a document its root is moved in: all of it, where it was in no list of its own. */
  lemma DetachedHolds(was: Kids, now: Kids, markup: map<Id, Markup>, parent: Id, t: Tree)
    requires Holds(was, markup, t) && Simple(t) && parent in was && parent !in Ids(t)
    requires now.Keys == was.Keys
    requires forall id :: id in was && id != parent ==> now[id] == Without(was[id], t.id)
    ensures Holds(now, markup, t) && Frame(was, now, {parent}, Ids(t))
  {
    forall id | id in Ids(t) && id in was
      ensures id in now && now[id] == was[id]
    {
      if t.id in was[id] {
        ChildrenWithin(was, markup, t, id, t.id);
      }
    }
    HoldsStill(was, now, markup, t);
  }

  /** The trees in the parent with `at` of those drawn in their places. */
  ghost function Midway(shown: seq<Tree>, drawn: seq<Tree>, at: nat): seq<Tree>
    requires at <= |drawn|
  {
    Patched(shown, drawn)[..at] + if at < |shown| then shown[at..] else []
  }

  ghost predicate HeldMidway(
    kids: Kids, markup: map<Id, Markup>, shown: seq<Tree>, drawn: seq<Tree>, at: nat)
    requires at <= |drawn|
  {
    && (forall j :: 0 <= j < at ==> Holds(kids, markup, Patched(shown, drawn)[j]))
    && (forall j :: at <= j < |shown| ==> Holds(kids, markup, shown[j]))
    && (forall j :: at <= j < |drawn| ==> Holds(kids, markup, drawn[j]))
  }

  /** The elements drawn are those at their places already, or in no tree there. */
  ghost predicate Drawable(parent: Id, shown: seq<Tree>, drawn: seq<Tree>) {
    && Apart(shown) && Apart(drawn) && Fresh(shown, drawn)
    && parent !in IdsOf(shown) && parent !in IdsOf(drawn)
  }

  /** The same of a parent with texts between its elements. */
  ghost predicate DrawableAmong(parent: Id, all: seq<Tree>, drawn: seq<Tree>) {
    && Apart(all) && Apart(drawn) && parent !in IdsOf(all) && parent !in IdsOf(drawn)
    && forall i :: 0 <= i < |drawn| ==>
         (i < |Elements(all)| && drawn[i] == Elements(all)[i]) || Ids(drawn[i]) !! IdsOf(all)
  }

  lemma {:induction false} PartsAreApart(all: seq<Tree>)
    requires Apart(all)
    ensures Apart(Elements(all)) && Apart(Texts(all)) && IdsOf(Elements(all)) !! IdsOf(Texts(all))
    ensures IdsOf(all) == IdsOf(Elements(all)) + IdsOf(Texts(all))
  {
    hide Ids, Simple;
    if all != [] {
      PartsAreApart(all[1..]);
    }
  }

  lemma {:induction false} IdsOfEach(trees: seq<Tree>, ids: set<Id>)
    requires forall i :: 0 <= i < |trees| ==> Ids(trees[i]) !! ids
    ensures IdsOf(trees) !! ids
  {
    hide Ids;
    if trees != [] {
      IdsOfEach(trees[1..], ids);
    }
  }

  lemma AmongIsDrawable(parent: Id, all: seq<Tree>, drawn: seq<Tree>)
    requires DrawableAmong(parent, all, drawn)
    ensures Drawable(parent, Elements(all), drawn)
    ensures IdsOf(Texts(all)) !! IdsOf(Elements(all)) && IdsOf(Texts(all)) !! IdsOf(drawn)
    ensures parent !in IdsOf(Texts(all)) && IdsOf(all) == IdsOf(Elements(all)) + IdsOf(Texts(all))
  {
    hide Ids, IdsOf, Apart, Elements, Texts;
    PartsAreApart(all);
    forall i | 0 <= i < |drawn| ensures Ids(drawn[i]) !! IdsOf(Texts(all)) {
      if i < |Elements(all)| {
        OneOf(Elements(all), i);
      }
    }
    IdsOfEach(drawn, IdsOf(Texts(all)));
  }

  lemma {:induction false} HoldsParts(kids: Kids, markup: map<Id, Markup>, all: seq<Tree>)
    requires HoldsAll(kids, markup, all)
    ensures HoldsAll(kids, markup, Elements(all)) && HoldsAll(kids, markup, Texts(all))
  {
    hide Holds;
    if all != [] {
      HoldsParts(kids, markup, all[1..]);
    }
  }

  lemma {:induction false} HoldsWoven(
    kids: Kids, markup: map<Id, Markup>, all: seq<Tree>, elements: seq<Tree>)
    requires HoldsAll(kids, markup, Texts(all)) && HoldsAll(kids, markup, elements)
    ensures HoldsAll(kids, markup, Woven(all, elements))
  {
    hide Holds;
    if all == [] {
    } else if all[0].markup.Text? || elements == [] {
      HoldsWoven(kids, markup, all[1..], elements);
    } else {
      HoldsWoven(kids, markup, all[1..], elements[1..]);
    }
  }

  lemma {:induction false} WovenIds(all: seq<Tree>, elements: seq<Tree>)
    ensures IdsOf(Woven(all, elements)) <= IdsOf(Texts(all)) + IdsOf(elements)
  {
    hide Ids;
    if all == [] {
    } else if all[0].markup.Text? || elements == [] {
      WovenIds(all[1..], elements);
    } else {
      WovenIds(all[1..], elements[1..]);
    }
  }

  lemma {:induction false} WovenFrom(all: seq<Tree>, elements: seq<Tree>, t: Tree)
    requires t in Woven(all, elements)
    ensures t in Texts(all) || t in elements
  {
    if all == [] {
    } else if all[0].markup.Text? || elements == [] {
      var rest := Woven(all[1..], elements);
      if all[0].markup.Element? || t in rest {
        WovenFrom(all[1..], elements, t);
      }
    } else if t != elements[0] {
      WovenFrom(all[1..], elements[1..], t);
    }
  }

  lemma {:induction false} WovenIsApart(all: seq<Tree>, elements: seq<Tree>)
    requires Apart(Texts(all)) && Apart(elements) && IdsOf(Texts(all)) !! IdsOf(elements)
    ensures Apart(Woven(all, elements))
  {
    hide Ids, Simple;
    if all == [] {
    } else if all[0].markup.Text? {
      WovenIds(all[1..], elements);
      WovenIsApart(all[1..], elements);
    } else if elements == [] {
      WovenIsApart(all[1..], elements);
    } else {
      WovenIds(all[1..], elements[1..]);
      WovenIsApart(all[1..], elements[1..]);
    }
  }

  /** What comes out of a parent's children has no node in two places: it can be drawn into again. */
  lemma ChildrenStayApart(parent: Id, all: seq<Tree>, drawn: seq<Tree>)
    requires DrawableAmong(parent, all, drawn)
    ensures Apart(PatchedAmong(all, drawn)) && parent !in IdsOf(PatchedAmong(all, drawn))
  {
    PartsAreApart(all);
    AmongIsDrawable(parent, all, drawn);
    PatchedAreApart(Elements(all), drawn);
    PatchedIds(Elements(all), drawn);
    hide Ids, IdsOf, Apart, Patched, Elements, Texts;
    WovenIsApart(all, Patched(Elements(all), drawn));
    WovenIds(all, Patched(Elements(all), drawn));
  }

  // ---------------------------------------------------------------------------------------
  // Where an element stands among a parent's children
  // ---------------------------------------------------------------------------------------

  /** The place of the element at `at` of the elements; the end where there are no more. */
  function PlaceOf(trees: seq<Tree>, at: nat): (place: nat)
    ensures place <= |trees|
  {
    if trees == [] then 0
    else if trees[0].markup.Text? then 1 + PlaceOf(trees[1..], at)
    else if at == 0 then 0
    else 1 + PlaceOf(trees[1..], at - 1)
  }

  lemma {:induction false} PlaceInElements(elements: seq<Tree>, at: nat)
    requires OnlyElements(elements) && at <= |elements|
    ensures PlaceOf(elements, at) == at
  {
    if at > 0 {
      PlaceInElements(elements[1..], at - 1);
    }
  }

  function TakenOut<T>(items: seq<T>, place: nat): seq<T>
    requires place < |items|
  {
    items[..place] + items[place + 1..]
  }

  lemma PutLater<T>(head: T, rest: seq<T>, place: nat, item: T)
    requires place < |rest|
    ensures ([head] + rest)[place + 1 := item] == [head] + rest[place := item]
    ensures ([head] + rest)[place + 1] == rest[place] && ([head] + rest)[1..] == rest
  {
  }

  lemma TakenOutLater<T>(head: T, rest: seq<T>, place: nat)
    requires place < |rest|
    ensures TakenOut([head] + rest, place + 1) == [head] + TakenOut(rest, place)
  {
    assert ([head] + rest)[..place + 1] == [head] + rest[..place];
    assert ([head] + rest)[place + 2..] == rest[place + 1..];
  }

  lemma WovenInNone(elements: seq<Tree>, at: nat)
    requires OnlyElements(elements) && at <= |elements|
    ensures Woven([], elements) == elements && PlaceOf(Woven([], elements), at) == at
  {
    PlaceInElements(elements, at);
  }

  lemma WovenPastText(all: seq<Tree>, elements: seq<Tree>, at: nat)
    requires all != [] && all[0].markup.Text?
    ensures var rest := Woven(all[1..], elements);
            Woven(all, elements) == [all[0]] + rest
            && PlaceOf([all[0]] + rest, at) == PlaceOf(rest, at) + 1
  {
    var rest := Woven(all[1..], elements);
    assert ([all[0]] + rest)[1..] == rest;
  }

  lemma WovenPastElement(all: seq<Tree>, elements: seq<Tree>, at: nat)
    requires all != [] && all[0].markup.Element? && elements != [] && elements[0].markup.Element?
    ensures var rest := Woven(all[1..], elements[1..]);
            Woven(all, elements) == [elements[0]] + rest
            && PlaceOf([elements[0]] + rest, at) == if at == 0 then 0 else PlaceOf(rest, at - 1) + 1
  {
    var rest := Woven(all[1..], elements[1..]);
    assert ([elements[0]] + rest)[1..] == rest;
  }

  lemma PutFirst<T>(head: T, rest: seq<T>, item: T)
    ensures ([head] + rest)[0 := item] == [item] + rest
  {
  }

  lemma FirstTakenOut<T>(head: T, rest: seq<T>)
    ensures TakenOut([head] + rest, 0) == rest
  {
    assert ([head] + rest)[..0] == [] && ([head] + rest)[1..] == rest;
  }

  lemma PutInRest<T>(items: seq<T>, at: nat, item: T)
    requires at < |items|
    ensures items[at := item][1..] == if at == 0 then items[1..] else items[1..][at - 1 := item]
  {
  }

  /** An element put for another is put at its place. */
  lemma {:induction false} WovenAt(all: seq<Tree>, elements: seq<Tree>, at: nat, t: Tree)
    requires OnlyElements(elements) && at < |elements| && t.markup.Element?
    ensures var woven, place := Woven(all, elements), PlaceOf(Woven(all, elements), at);
            && place < |woven| && woven[place] == elements[at]
            && Woven(all, elements[at := t]) == woven[place := t]
  {
    hide Woven, PlaceOf;
    var now := elements[at := t];
    if all == [] {
      WovenInNone(elements, at);
      WovenInNone(now, at);
    } else if all[0].markup.Text? {
      var rest := Woven(all[1..], elements);
      WovenAt(all[1..], elements, at, t);
      WovenPastText(all, elements, at);
      WovenPastText(all, now, at);
      PutLater(all[0], rest, PlaceOf(rest, at), t);
    } else {
      var rest := Woven(all[1..], elements[1..]);
      WovenPastElement(all, elements, at);
      WovenPastElement(all, now, at);
      PutInRest(elements, at, t);
      if at == 0 {
        PutFirst(elements[0], rest, t);
      } else {
        WovenAt(all[1..], elements[1..], at - 1, t);
        PutLater(elements[0], rest, PlaceOf(rest, at - 1), t);
      }
    }
  }

  /** One more than all of them is put at the end. */
  lemma {:induction false} WovenEnd(all: seq<Tree>, elements: seq<Tree>, t: Tree)
    requires OnlyElements(elements) && |elements| >= |Elements(all)|
    ensures PlaceOf(Woven(all, elements), |elements|) == |Woven(all, elements)|
    ensures Woven(all, elements + [t]) == Woven(all, elements) + [t]
  {
    if all == [] {
      PlaceInElements(elements, |elements|);
    } else if all[0].markup.Text? {
      WovenEnd(all[1..], elements, t);
    } else {
      WovenEnd(all[1..], elements[1..], t);
      assert (elements + [t])[1..] == elements[1..] + [t];
    }
  }

  lemma WovenOfNone(all: seq<Tree>)
    ensures all != [] && all[0].markup.Element? ==> Woven(all, []) == Woven(all[1..], [])
  {
  }

  /** The last element left out is taken out of its place. */
  lemma {:induction false} WovenWithoutLast(all: seq<Tree>, elements: seq<Tree>)
    requires OnlyElements(elements) && elements != []
    ensures var woven, place := Woven(all, elements), PlaceOf(Woven(all, elements), |elements| - 1);
            place < |woven| && Woven(all, elements[..|elements| - 1]) == TakenOut(woven, place)
  {
    hide Woven, PlaceOf, TakenOut;
    var last := |elements| - 1;
    var less := elements[..last];
    if all == [] {
      WovenInNone(elements, last);
      WovenInNone(less, 0);
      LastTakenOut(elements);
    } else if all[0].markup.Text? {
      var rest := Woven(all[1..], elements);
      WovenWithoutLast(all[1..], elements);
      WovenPastText(all, elements, last);
      WovenPastText(all, less, 0);
      TakenOutLater(all[0], rest, PlaceOf(rest, last));
    } else {
      var rest := Woven(all[1..], elements[1..]);
      WovenPastElement(all, elements, last);
      FirstTakenOut(elements[0], rest);
      if last == 0 {
        assert elements[1..] == [] && less == [];
        WovenOfNone(all);
      } else {
        WovenWithoutLast(all[1..], elements[1..]);
        WovenPastElement(all, less, 0);
        assert less[1..] == elements[1..][..last - 1];
        TakenOutLater(elements[0], rest, PlaceOf(rest, last - 1));
      }
    }
  }

  lemma LastTakenOut<T>(items: seq<T>)
    requires items != []
    ensures TakenOut(items, |items| - 1) == items[..|items| - 1]
  {
  }

  lemma {:induction false} WovenOfElements(all: seq<Tree>, elements: seq<Tree>)
    requires OnlyElements(all)
    ensures Woven(all, elements) == elements
  {
    if all != [] {
      WovenOfElements(all[1..], if elements == [] then [] else elements[1..]);
      if elements != [] {
        assert elements == [elements[0]] + elements[1..];
      }
    }
  }

  lemma PatchedOfElements(all: seq<Tree>, nodes: seq<Tree>)
    requires OnlyElements(all)
    ensures PatchedAmong(all, nodes) == Patched(all, nodes)
  {
    OnlyElementsAre(all);
    WovenOfElements(all, Patched(all, nodes));
  }

  lemma StartsHeld(kids: Kids, markup: map<Id, Markup>, shown: seq<Tree>, drawn: seq<Tree>)
    requires HoldsAll(kids, markup, shown) && HoldsAll(kids, markup, drawn)
    ensures HeldMidway(kids, markup, shown, drawn, 0) && Midway(shown, drawn, 0) == shown
  {
    hide Holds, HoldsAll, Patched;
    forall j | 0 <= j < |shown| ensures Holds(kids, markup, shown[j]) {
      HoldsOneOf(kids, markup, shown, j);
    }
    forall j | 0 <= j < |drawn| ensures Holds(kids, markup, drawn[j]) {
      HoldsOneOf(kids, markup, drawn, j);
    }
  }

  /** The ids of two places are apart, in what is drawn and in what was there. */
  lemma PlacesAreApart(parent: Id, shown: seq<Tree>, drawn: seq<Tree>, i: nat, j: nat)
    requires Drawable(parent, shown, drawn)
    ensures i < |drawn| ==> Simple(drawn[i]) && parent !in Ids(drawn[i]) && Ids(drawn[i]) <= IdsOf(drawn)
    ensures i < |shown| ==> Simple(shown[i]) && parent !in Ids(shown[i]) && Ids(shown[i]) <= IdsOf(shown)
    ensures i < |drawn| && j < |shown| ==> (i == j && drawn[i] == shown[i]) || Ids(drawn[i]) !! Ids(shown[j])
    ensures i < |drawn| && j < |drawn| && i != j ==> Ids(drawn[i]) !! Ids(drawn[j])
    ensures i < |shown| && j < |shown| && i != j ==> Ids(shown[i]) !! Ids(shown[j])
  {
    hide Ids, IdsOf, Apart, Simple;
    if i < |drawn| {
      OneOf(drawn, i);
      ApartOnes(drawn, i, if j < |drawn| then j else i);
    }
    if i < |shown| {
      OneOf(shown, i);
      ApartOnes(shown, i, if j < |shown| then j else i);
    }
    if j < |shown| {
      OneOf(shown, j);
      if i < |shown| {
        ApartOnes(shown, i, j);
      }
    }
  }

  lemma PatchedAtIds(shown: seq<Tree>, drawn: seq<Tree>, j: nat)
    requires j < |drawn|
    ensures Ids(Patched(shown, drawn)[j]) <=
            Ids(drawn[j]) + if j < |shown| then Ids(shown[j]) else {}
  {
    hide Ids, Patched, PatchedOne;
    PatchedAt(shown, drawn, j);
    if j < |shown| {
      PatchedOneIds(shown[j], drawn[j]);
    }
  }

  lemma RootIsOf(t: Tree)
    ensures t.id in Ids(t)
  {
  }

  /** Unless it is the one there already, a node drawn is none of the parent's children, nor in one at its root. */
  lemma MidwayClear(parent: Id, all: seq<Tree>, drawn: seq<Tree>, at: nat, children: seq<Id>)
    requires DrawableAmong(parent, all, drawn) && at < |drawn|
    requires !(at < |Elements(all)| && drawn[at] == Elements(all)[at])
    requires children == RootsOf(Woven(all, Midway(Elements(all), drawn, at)))
    ensures Clear(children, Ids(drawn[at]))
  {
    AmongIsDrawable(parent, all, drawn);
    hide Ids, IdsOf, Patched, Drawable, DrawableAmong, Woven, Elements, Texts;
    var shown, texts := Elements(all), Texts(all);
    var mid := Midway(shown, drawn, at);
    var woven := Woven(all, mid);
    OneOf(drawn, at);
    forall child | child in children
      ensures child !in Ids(drawn[at])
    {
      var k :| 0 <= k < |children| && children[k] == child;
      var t := woven[k];
      RootIsOf(t);
      WovenFrom(all, mid, t);
      if t in texts {
        var i :| 0 <= i < |texts| && texts[i] == t;
        OneOf(texts, i);
      } else {
        var j :| 0 <= j < |mid| && mid[j] == t;
        ClearOfPlace(parent, shown, drawn, at, j);
      }
    }
  }

  lemma ClearOfPlace(parent: Id, shown: seq<Tree>, drawn: seq<Tree>, at: nat, j: nat)
    requires Drawable(parent, shown, drawn) && at < |drawn| && !(at < |shown| && drawn[at] == shown[at])
    requires j < |Midway(shown, drawn, at)|
    ensures Ids(Midway(shown, drawn, at)[j]) !! Ids(drawn[at])
  {
    hide Ids, IdsOf, Patched, Drawable;
    PlacesAreApart(parent, shown, drawn, at, j);
    var t := Midway(shown, drawn, at)[j];
    if j < at {
      assert t == Patched(shown, drawn)[j];
      PatchedAtIds(shown, drawn, j);
    } else {
      assert t == shown[j];
    }
  }

  /** What drawing at one place leaves in the others. */
  lemma MidwayNext(
    was: Kids, now: Kids, markup: map<Id, Markup>, shown: seq<Tree>, drawn: seq<Tree>, at: nat,
    parent: Id)
    requires Drawable(parent, shown, drawn) && at < |drawn|
    requires HeldMidway(was, markup, shown, drawn, at)
    requires Holds(now, markup, Patched(shown, drawn)[at])
    requires Frame(was, now, {parent} + Ids(drawn[at]) + if at < |shown| then Ids(shown[at]) else {},
                   Ids(drawn[at]))
    ensures HeldMidway(now, markup, shown, drawn, at + 1)
    ensures Frame(was, now, {parent} + IdsOf(shown) + IdsOf(drawn), IdsOf(drawn))
  {
    hide Ids, IdsOf, Patched, Drawable, Frame, Holds, Simple;
    var touched := {parent} + Ids(drawn[at]) + if at < |shown| then Ids(shown[at]) else {};
    var moved := Ids(drawn[at]);
    PlacesAreApart(parent, shown, drawn, at, at);
    FrameWider(was, now, touched, moved, {parent} + IdsOf(shown) + IdsOf(drawn), IdsOf(drawn));
    forall j | 0 <= j < at ensures Holds(now, markup, Patched(shown, drawn)[j]) {
      PlacesAreApart(parent, shown, drawn, at, j);
      PlacesAreApart(parent, shown, drawn, j, at);
      PatchedAtIds(shown, drawn, j);
      FrameHolds(was, now, markup, Patched(shown, drawn)[j], touched, moved);
    }
    forall j | at < j < |shown| ensures Holds(now, markup, shown[j]) {
      PlacesAreApart(parent, shown, drawn, at, j);
      PlacesAreApart(parent, shown, drawn, j, at);
      FrameHolds(was, now, markup, shown[j], touched, moved);
    }
    forall j | at < j < |drawn| ensures Holds(now, markup, drawn[j]) {
      PlacesAreApart(parent, shown, drawn, at, j);
      PlacesAreApart(parent, shown, drawn, j, at);
      FrameHolds(was, now, markup, drawn[j], touched, moved);
    }
  }

  lemma MidwayStep(shown: seq<Tree>, drawn: seq<Tree>, at: nat)
    requires at < |drawn|
    ensures var mid, t := Midway(shown, drawn, at), Patched(shown, drawn)[at];
            Midway(shown, drawn, at + 1) == if at < |shown| then mid[at := t] else mid + [t]
    ensures |Midway(shown, drawn, at)| == if at < |shown| then |shown| else at
    ensures at < |shown| ==> Midway(shown, drawn, at)[at] == shown[at]
  {
    hide Patched;
    if at < |shown| {
      assert shown[at..][1..] == shown[at + 1..];
    }
  }

  lemma MidwayElements(shown: seq<Tree>, drawn: seq<Tree>, at: nat)
    requires OnlyElements(shown) && OnlyElements(drawn) && at <= |drawn|
    ensures OnlyElements(Midway(shown, drawn, at))
  {
    PatchedElements(shown, drawn);
    hide Patched;
  }

  lemma TakenOutAt<T>(items: seq<T>, place: nat)
    requires place < |items|
    ensures var left := TakenOut(items, place);
            && |left| == |items| - 1
            && forall i :: 0 <= i < |left| ==> left[i] == items[if i < place then i else i + 1]
  {
  }

  lemma RootsTakenOut(trees: seq<Tree>, place: nat)
    requires place < |trees|
    ensures RootsOf(TakenOut(trees, place)) == TakenOut(RootsOf(trees), place)
  {
    hide RootsOf, TakenOut;
    TakenOutAt(trees, place);
    TakenOutAt(RootsOf(trees), place);
  }

  lemma RootsPut(trees: seq<Tree>, place: nat, t: Tree)
    ensures place < |trees| ==>
              RootsOf(trees[place := t]) == RootsOf(trees)[..place] + [t.id] + RootsOf(trees)[place + 1..]
    ensures RootsOf(trees + [t]) == RootsOf(trees)[..|trees|] + [t.id] + []
  {
    hide RootsOf;
  }

  /** Where the next element is drawn, and the children after it. */
  lemma MidwayWoven(all: seq<Tree>, drawn: seq<Tree>, at: nat)
    requires OnlyElements(drawn) && at < |drawn|
    ensures var shown := Elements(all);
            var woven := Woven(all, Midway(shown, drawn, at));
            var place, roots := PlaceOf(woven, at), RootsOf(woven);
            && (place < |woven| <==> at < |shown|) && (at < |shown| ==> woven[place] == shown[at])
            && RootsOf(Woven(all, Midway(shown, drawn, at + 1))) ==
               roots[..place] + [Patched(shown, drawn)[at].id] + if at < |shown| then roots[place + 1..] else []
  {
    hide Elements, Woven, PlaceOf, Patched, Midway, RootsOf;
    var shown, t := Elements(all), Patched(Elements(all), drawn)[at];
    var mid := Midway(shown, drawn, at);
    ElementsAreOnly(all);
    MidwayElements(shown, drawn, at);
    MidwayStep(shown, drawn, at);
    PatchedElements(shown, drawn);
    var woven := Woven(all, mid);
    RootsPut(woven, PlaceOf(woven, at), t);
    if at < |shown| {
      WovenAt(all, mid, at, t);
    } else {
      WovenEnd(all, mid, t);
    }
  }

  /** The markup of each root is known. */
  predicate Marked(markup: map<Id, Markup>, trees: seq<Tree>) {
    forall i :: 0 <= i < |trees| ==> trees[i].id in markup && markup[trees[i].id] == trees[i].markup
  }

  lemma MarkedWoven(markup: map<Id, Markup>, all: seq<Tree>, elements: seq<Tree>)
    requires Marked(markup, Texts(all)) && Marked(markup, elements)
    ensures Marked(markup, Woven(all, elements))
  {
    hide Woven, Texts;
    var woven := Woven(all, elements);
    forall i | 0 <= i < |woven|
      ensures woven[i].id in markup && markup[woven[i].id] == woven[i].markup
    {
      WovenFrom(all, elements, woven[i]);
    }
  }

  lemma {:induction false} HeldIsMarked(kids: Kids, markup: map<Id, Markup>, trees: seq<Tree>)
    requires HoldsAll(kids, markup, trees)
    ensures Marked(markup, trees)
  {
    if trees != [] {
      HeldIsMarked(kids, markup, trees[1..]);
      assert trees == [trees[0]] + trees[1..];
    }
  }

  lemma MidwayMarked(kids: Kids, markup: map<Id, Markup>, shown: seq<Tree>, drawn: seq<Tree>, at: nat)
    requires at <= |drawn| && HeldMidway(kids, markup, shown, drawn, at)
    ensures Marked(markup, Midway(shown, drawn, at))
  {
    hide Patched, HoldsAll;
  }

  lemma {:induction false} FrameHoldsAll(
    was: Kids, now: Kids, markup: map<Id, Markup>, trees: seq<Tree>, touched: set<Id>, moved: set<Id>)
    requires HoldsAll(was, markup, trees) && Frame(was, now, touched, moved)
    requires IdsOf(trees) !! touched && IdsOf(trees) !! moved
    ensures HoldsAll(now, markup, trees)
  {
    hide Holds, Frame, Ids;
    if trees != [] {
      FrameHolds(was, now, markup, trees[0], touched, moved);
      FrameHoldsAll(was, now, markup, trees[1..], touched, moved);
    }
  }

  lemma {:induction false} WovenItself(all: seq<Tree>)
    ensures Woven(all, Elements(all)) == all
  {
    if all != [] {
      WovenItself(all[1..]);
      assert all == [all[0]] + all[1..];
      if all[0].markup.Element? {
        assert Elements(all)[1..] == Elements(all[1..]);
      }
    }
  }

  lemma KidsAreDrawable(s: Tree, t: Tree)
    requires Simple(s) && Simple(t) && Ids(s) !! Ids(t)
    ensures DrawableAmong(s.id, s.kids, t.kids)
  {
    forall i | 0 <= i < |t.kids| ensures Ids(t.kids[i]) !! IdsOf(s.kids) {
      OneOf(t.kids, i);
    }
  }

  lemma MidwayEnds(kids: Kids, markup: map<Id, Markup>, all: seq<Tree>, drawn: seq<Tree>)
    requires HeldMidway(kids, markup, Elements(all), drawn, |drawn|)
    ensures HoldsAll(kids, markup, Patched(Elements(all), drawn))
    ensures var mid := Midway(Elements(all), drawn, |drawn|);
            |drawn| <= |mid| && Woven(all, mid[..|drawn|]) == PatchedAmong(all, drawn)
  {
    hide Patched, Holds, Woven, Elements;
    var patched, mid := Patched(Elements(all), drawn), Midway(Elements(all), drawn, |drawn|);
    HoldsEach(kids, markup, patched);
    assert mid[..|drawn|] == patched;
  }

  lemma OpenedHolds(now: Kids, markup: map<Id, Markup>, s: Tree, t: Tree)
    requires !Same(s, t) && AreOpened(s, t)
    requires s.id in now && now[s.id] == RootsOf(Patched(s.kids, t.kids))
    requires s.id in markup && markup[s.id] == s.markup
    requires HoldsAll(now, markup, Patched(s.kids, t.kids))
    ensures Holds(now, markup, PatchedOne(s, t)) && PatchedOne(s, t).id == s.id
  {
    hide Same, AreOpened;
  }

  lemma TakesNothing(children: seq<Id>, node: Id, t: Tree)
    requires Clear(children, Ids(t)) && node == t.id
    ensures node !in children && Without(children, node) == children
  {
  }

  lemma Moved(was: Kids, now: Kids, markup: map<Id, Markup>, parent: Id, t: Tree)
    requires Holds(was, markup, t) && Simple(t) && parent in was && parent !in Ids(t)
    requires now.Keys == was.Keys
    requires forall id :: id in was && id != parent ==> now[id] == Without(was[id], t.id)
    ensures Holds(now, markup, t) && Frame(was, now, {parent} + Ids(t), Ids(t))
  {
    DetachedHolds(was, now, markup, parent, t);
    FrameWider(was, now, {parent}, Ids(t), {parent} + Ids(t), Ids(t));
  }

  lemma ParentStays(was: Kids, now: Kids, parent: Id, s: Tree, t: Tree)
    requires parent in was && parent !in Ids(s) && parent !in Ids(t) && Clear(was[parent], Ids(t))
    requires Frame(was, now, {s.id} + IdsOf(s.kids) + IdsOf(t.kids), IdsOf(t.kids))
    ensures parent in now && now[parent] == was[parent]
  {
    assert Clear(was[parent], IdsOf(t.kids));
  }

  lemma KeepsItsPlace(ids: seq<Id>, at: nat)
    requires at < |ids|
    ensures ids == ids[..at] + [ids[at]] + ids[at + 1..]
  {
  }

  lemma FrameStarts(kids: Kids, touched: set<Id>, moved: set<Id>)
    ensures Frame(kids, kids, touched, moved)
  {
  }

  /** What a place is drawn from. */
  lemma MidwayPlace(
    kids: Kids, markup: map<Id, Markup>, shown: seq<Tree>, drawn: seq<Tree>, at: nat, parent: Id)
    requires Drawable(parent, shown, drawn) && at < |drawn|
    requires HeldMidway(kids, markup, shown, drawn, at)
    ensures Holds(kids, markup, drawn[at]) && Simple(drawn[at]) && parent !in Ids(drawn[at])
    ensures at < |shown| ==>
      Holds(kids, markup, shown[at]) && Simple(shown[at]) && parent !in Ids(shown[at])
      && (shown[at] == drawn[at] || Ids(shown[at]) !! Ids(drawn[at]))
  {
    hide Ids, IdsOf, Patched, Drawable, Holds, Simple;
    PlacesAreApart(parent, shown, drawn, at, at);
  }

  /** Children taken from the parent leave what is drawn, and the texts between. */
  lemma RemovedHolds(
    was: Kids, markup: map<Id, Markup>, parent: Id, children: seq<Id>, all: seq<Tree>, drawn: seq<Tree>)
    requires HoldsAll(was, markup, Patched(Elements(all), drawn)) && HoldsAll(was, markup, Texts(all))
    requires DrawableAmong(parent, all, drawn) && parent in was
    ensures HoldsAll(was[parent := children], markup, PatchedAmong(all, drawn))
  {
    AmongIsDrawable(parent, all, drawn);
    var patched := Patched(Elements(all), drawn);
    PatchedIds(Elements(all), drawn);
    WovenIds(all, patched);
    HoldsWoven(was, markup, all, patched);
    hide Patched, IdsOf, Apart, Woven, Elements, Texts, HoldsAll;
    HoldAllStill(was, was[parent := children], markup, PatchedAmong(all, drawn));
  }

  lemma FrameWithParent(was: Kids, now: Kids, parent: Id, children: seq<Id>, touched: set<Id>, moved: set<Id>)
    requires Frame(was, now, touched, moved) && parent in now && parent in touched
    ensures Frame(was, now[parent := children], touched, moved)
  {
  }

  class Document {
    var kids: Kids
    const markup: map<Id, Markup>

    constructor (kids: Kids, markup: map<Id, Markup>)
      ensures this.kids == kids && this.markup == markup
    {
      this.kids, this.markup := kids, markup;
    }

    /** append: a node already somewhere is moved from there. */
    method Append(parent: Id, node: Id)
      requires parent in kids
      modifies this
      ensures kids == Detached(old(kids), node)[parent := Detached(old(kids), node)[parent] + [node]]
    {
      var detached := Detached(kids, node);
      kids := detached[parent := detached[parent] + [node]];
    }

    /** replaceWith, where the node drawn is not a child of the parent itself. */
    method ReplaceWith(parent: Id, at: nat, node: Id)
      requires parent in kids && at < |kids[parent]| && node !in kids[parent]
      modifies this
      ensures kids == Detached(old(kids), node)
        [parent := old(kids)[parent][..at] + [node] + old(kids)[parent][at + 1..]]
    {
      kids := Detached(kids, node)[parent := kids[parent][..at] + [node] + kids[parent][at + 1..]];
    }

    /** remove, of a child of the parent. */
    method RemoveAt(parent: Id, place: nat)
      requires parent in kids && place < |kids[parent]|
      modifies this
      ensures kids == old(kids)[parent := TakenOut(old(kids)[parent], place)]
    {
      kids := kids[parent := kids[parent][..place] + kids[parent][place + 1..]];
    }

    /** Where the element at `at` of `children` stands among all of the parent's children. */
    method ElementAt(parent: Id, at: nat, ghost trees: seq<Tree>) returns (place: nat)
      requires parent in kids && kids[parent] == RootsOf(trees) && Marked(markup, trees)
      ensures place == PlaceOf(trees, at)
    {
      place := 0;
      var left := at;
      while place < |kids[parent]|
        invariant 0 <= place <= |trees| && place + PlaceOf(trees[place..], left) == PlaceOf(trees, at)
      {
        assert trees[place..][1..] == trees[place + 1..];
        if markup[kids[parent][place]].Element? {
          if left == 0 {
            return;
          }
          left := left - 1;
        }
        place := place + 1;
      }
    }

    /** How many elements the parent has. */
    method ElementCount(parent: Id, ghost trees: seq<Tree>) returns (count: nat)
      requires parent in kids && kids[parent] == RootsOf(trees) && Marked(markup, trees)
      ensures count == |Elements(trees)|
    {
      count := 0;
      var place := 0;
      while place < |kids[parent]|
        invariant 0 <= place <= |trees| && count + |Elements(trees[place..])| == |Elements(trees)|
      {
        assert trees[place..][1..] == trees[place + 1..];
        if markup[kids[parent][place]].Element? {
          count := count + 1;
        }
        place := place + 1;
      }
    }

    /** isEqualNode: the same markup all through. */
    method IsEqualNode(a: Id, b: Id, ghost s: Tree, ghost t: Tree) returns (same: bool)
      requires Holds(kids, markup, s) && Holds(kids, markup, t) && s.id == a && t.id == b
      ensures same == Same(s, t)
      decreases s, 0
    {
      if markup[a] != markup[b] {
        return false;
      }
      same := AreEqualNodes(kids[a], kids[b], s.kids, t.kids);
    }

    method AreEqualNodes(a: seq<Id>, b: seq<Id>, ghost s: seq<Tree>, ghost t: seq<Tree>)
      returns (same: bool)
      requires HoldsAll(kids, markup, s) && HoldsAll(kids, markup, t)
      requires a == RootsOf(s) && b == RootsOf(t)
      ensures same == SameAll(s, t)
      decreases s, 1
    {
      if |a| != |b| {
        return false;
      }
      if a == [] {
        return true;
      }
      same := IsEqualNode(a[0], b[0], s[0], t[0]);
      if same {
        same := AreEqualNodes(a[1..], b[1..], s[1..], t[1..]);
      }
    }

    /** Whether a node has only elements in it. */
    method HoldsOnlyElements(id: Id, ghost t: Tree) returns (only: bool)
      requires Holds(kids, markup, t) && t.id == id
      ensures only == OnlyElements(t.kids)
    {
      var at := 0;
      while at < |kids[id]|
        invariant 0 <= at <= |kids[id]| && OnlyElements(t.kids[..at])
      {
        HoldsOneOf(kids, markup, t.kids, at);
        if !markup[kids[id][at]].Element? {
          return false;
        }
        at := at + 1;
      }
      only := true;
    }

    method Opens(shown: Id, node: Id, ghost s: Tree, ghost t: Tree) returns (opens: bool)
      requires Holds(kids, markup, s) && Holds(kids, markup, t) && s.id == shown && t.id == node
      ensures opens == AreOpened(s, t)
    {
      if markup[shown] != markup[node] || IsButton(markup[shown]) {
        return false;
      }
      opens := HoldsOnlyElements(shown, s);
      if opens {
        opens := HoldsOnlyElements(node, t);
      }
    }

    /** What is drawn at one place of a parent: put at its end, kept, drawn inside, or put for what was there. */
    method DrawAt(parent: Id, at: nat, node: Id, ghost before: seq<Tree>, ghost t: Tree)
      requires parent in kids && kids[parent] == RootsOf(before) && at <= |before| && node == t.id
      requires Holds(kids, markup, t) && Simple(t) && parent !in Ids(t)
      requires (at < |before| && before[at] == t) || Clear(kids[parent], Ids(t))
      requires at < |before| ==>
        Holds(kids, markup, before[at]) && Simple(before[at]) && parent !in Ids(before[at])
        && (before[at] == t || Ids(before[at]) !! Ids(t))
      modifies this
      ensures var after := if at < |before| then PatchedOne(before[at], t) else t;
              && Holds(kids, markup, after)
              && parent in kids
              && kids[parent] == RootsOf(before)[..at] + [after.id]
                 + if at < |before| then RootsOf(before)[at + 1..] else []
      ensures Frame(old(kids), kids, {parent} + Ids(t) + (if at < |before| then Ids(before[at]) else {}), Ids(t))
      decreases t, 0
    {
      hide Patched, RootsOf, Clear, Frame, Without;
      if at == |kids[parent]| {
        TakesNothing(kids[parent], node, t);
        Append(parent, node);
        assert RootsOf(before)[..at] == RootsOf(before);
        Moved(old(kids), kids, markup, parent, t);
        FrameWider(old(kids), kids, {parent} + Ids(t), Ids(t), {parent} + Ids(t) + {}, Ids(t));
        return;
      }
      ghost var s := before[at];
      var shown := kids[parent][at];
      KeepsItsPlace(RootsOf(before), at);
      SameItself(t);
      var same := IsEqualNode(shown, node, s, t);
      if same {
        FrameStarts(kids, {parent} + Ids(t) + Ids(s), Ids(t));
        return;
      }
      var opens := Opens(shown, node, s, t);
      hide Same, DrawableAmong, PatchedAmong;
      if opens {
        KidsAreDrawable(s, t);
        PatchedOfElements(s.kids, t.kids);
        Patch(shown, kids[node], s.kids, t.kids);
        OpenedHolds(kids, markup, s, t);
        FrameWider(old(kids), kids, {shown} + IdsOf(s.kids) + IdsOf(t.kids), IdsOf(t.kids),
                   {parent} + Ids(t) + Ids(s), Ids(t));
        ParentStays(old(kids), kids, parent, s, t);
      } else {
        TakesNothing(kids[parent], node, t);
        ReplaceWith(parent, at, node);
        Moved(old(kids), kids, markup, parent, t);
        FrameWider(old(kids), kids, {parent} + Ids(t), Ids(t), {parent} + Ids(t) + Ids(s), Ids(t));
      }
    }

    /** The loop over what is drawn, and over what is left of what was there. */
    method Patch(parent: Id, nodes: seq<Id>, ghost all: seq<Tree>, ghost drawn: seq<Tree>)
      requires parent in kids && kids[parent] == RootsOf(all) && nodes == RootsOf(drawn)
      requires HoldsAll(kids, markup, all) && HoldsAll(kids, markup, drawn)
      requires OnlyElements(drawn) && DrawableAmong(parent, all, drawn)
      modifies this
      ensures parent in kids && kids[parent] == RootsOf(PatchedAmong(all, drawn))
      ensures HoldsAll(kids, markup, PatchedAmong(all, drawn))
      ensures Frame(old(kids), kids, {parent} + IdsOf(all) + IdsOf(drawn), IdsOf(drawn))
      decreases drawn, 1
    {
      hide *;
      var at := 0;
      ghost var shown, texts := Elements(all), Texts(all);
      AmongIsDrawable(parent, all, drawn);
      HoldsParts(kids, markup, all);
      StartsHeld(kids, markup, shown, drawn);
      WovenItself(all);
      FrameStarts(kids, {parent} + IdsOf(shown) + IdsOf(drawn), IdsOf(drawn));
      while at < |nodes|
        invariant 0 <= at <= |nodes| && parent in kids
        invariant kids[parent] == RootsOf(Woven(all, Midway(shown, drawn, at)))
        invariant HeldMidway(kids, markup, shown, drawn, at) && HoldsAll(kids, markup, texts)
        invariant Frame(old(kids), kids, {parent} + IdsOf(shown) + IdsOf(drawn), IdsOf(drawn))
      {
        ghost var was, woven := kids, Woven(all, Midway(shown, drawn, at));
        HeldIsMarked(kids, markup, texts);
        MidwayMarked(kids, markup, shown, drawn, at);
        MarkedWoven(markup, all, Midway(shown, drawn, at));
        var place := ElementAt(parent, at, woven);
        MidwayWoven(all, drawn, at);
        MidwayPlace(kids, markup, shown, drawn, at, parent);
        if !(at < |shown| && drawn[at] == shown[at]) {
          MidwayClear(parent, all, drawn, at, kids[parent]);
        }
        PatchedAt(shown, drawn, at);
        DrawAt(parent, place, nodes[at], woven, drawn[at]);
        MidwayNext(was, kids, markup, shown, drawn, at, parent);
        FrameHoldsAll(was, kids, markup, texts, {parent} + IdsOf(shown) + IdsOf(drawn), IdsOf(drawn));
        FrameOfTwo(old(kids), was, kids, {parent} + IdsOf(shown) + IdsOf(drawn), IdsOf(drawn));
        at := at + 1;
      }
      MidwayEnds(kids, markup, all, drawn);
      RemovedHolds(kids, markup, parent, RootsOf(PatchedAmong(all, drawn)), all, drawn);
      FrameWider(old(kids), kids, {parent} + IdsOf(shown) + IdsOf(drawn), IdsOf(drawn),
                 {parent} + IdsOf(all) + IdsOf(drawn), IdsOf(drawn));
      FrameWithParent(old(kids), kids, parent, RootsOf(PatchedAmong(all, drawn)),
                      {parent} + IdsOf(all) + IdsOf(drawn), IdsOf(drawn));
      HeldIsMarked(kids, markup, texts);
      MidwayMarked(kids, markup, shown, drawn, |drawn|);
      ElementsAreOnly(all);
      MidwayElements(shown, drawn, |drawn|);
      RemoveBeyond(parent, |nodes|, all, Midway(shown, drawn, |drawn|));
    }

    /** The last element removed until there are no more than `most`. */
    method RemoveBeyond(parent: Id, most: nat, ghost all: seq<Tree>, ghost elements: seq<Tree>)
      requires parent in kids && kids[parent] == RootsOf(Woven(all, elements)) && most <= |elements|
      requires OnlyElements(elements) && Marked(markup, Texts(all)) && Marked(markup, elements)
      modifies this
      ensures kids == old(kids)[parent := RootsOf(Woven(all, elements[..most]))]
    {
      hide Woven, Texts, Elements, RootsOf, TakenOut;
      MarkedWoven(markup, all, elements);
      WovenParts(all, elements);
      var count := ElementCount(parent, Woven(all, elements));
      assert elements[..count] == elements;
      while count > most
        invariant most <= count <= |elements|
        invariant kids == old(kids)[parent := RootsOf(Woven(all, elements[..count]))]
      {
        ghost var left := elements[..count];
        MarkedWoven(markup, all, left);
        var place := ElementAt(parent, count - 1, Woven(all, left));
        WovenWithoutLast(all, left);
        RootsTakenOut(Woven(all, left), place);
        assert left[..count - 1] == elements[..count - 1];
        RemoveAt(parent, place);
        count := count - 1;
      }
    }
  }
}
