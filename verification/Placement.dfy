/**
 The dock's cards, placed in order where they change (app/ui/core/terminals.js, #place): a card taken out
 and put back blurs the terminal with the keyboard, so the cards that stay are left where they are.
 */
module Placement {
  import opened Prelude

  type Card = nat

  ghost predicate Distinct(cards: seq<Card>) {
    forall i, j :: 0 <= i < j < |cards| ==> cards[i] != cards[j]
  }

  /** The cards of `cards` that are among `others`, in their order. */
  function Among(cards: seq<Card>, others: seq<Card>): (kept: seq<Card>)
    ensures forall card :: card in kept <==> card in cards && card in others
  {
    if cards == [] then []
    else (if cards[0] in others then [cards[0]] else []) + Among(cards[1..], others)
  }

  /** Where a card stands; past the end where it does not. */
  function PlaceOf(cards: seq<Card>, card: Card): (at: nat)
    ensures at <= |cards| && (at < |cards| ==> cards[at] == card)
    ensures at == |cards| <==> card !in cards
    ensures forall i :: 0 <= i < at ==> cards[i] != card
  {
    if cards == [] || cards[0] == card then 0 else 1 + PlaceOf(cards[1..], card)
  }

  function Without(cards: seq<Card>, at: nat): seq<Card>
    requires at < |cards|
  {
    cards[..at] + cards[at + 1..]
  }

  function Removed(cards: seq<Card>, card: Card): seq<Card> {
    var at := PlaceOf(cards, card);
    if at == |cards| then cards else Without(cards, at)
  }

  /** A card put before `next`, or at the end, from wherever it was. */
  function Inserted(cards: seq<Card>, card: Card, next: Option<Card>): seq<Card> {
    var rest := Removed(cards, card);
    var at := if next.Some? then PlaceOf(rest, next.value) else |rest|;
    rest[..at] + [card] + rest[at..]
  }

  /** The cards put in as `wanted` are placed among `rest`. */
  function PutIn(rest: seq<Card>, wanted: seq<Card>): seq<Card> {
    if wanted == [] then []
    else
      (if rest != [] && rest[0] == wanted[0] then [] else [wanted[0]])
      + PutIn(Removed(rest, wanted[0]), wanted[1..])
  }

  /** `rest` without any of `cards`. */
  function RemovedAll(rest: seq<Card>, cards: seq<Card>): seq<Card> {
    if cards == [] then rest else RemovedAll(Removed(rest, cards[0]), cards[1..])
  }

  function Head(rest: seq<Card>): Option<Card> {
    if rest == [] then None else Some(rest[0])
  }

  function CardsOf(cards: seq<Card>): set<Card> {
    set card | card in cards
  }

  lemma PlaceIs(cards: seq<Card>, card: Card, at: nat)
    requires at < |cards| && cards[at] == card && forall i :: 0 <= i < at ==> cards[i] != card
    ensures PlaceOf(cards, card) == at
  {
  }

  lemma RemovedHolds(cards: seq<Card>, card: Card)
    requires Distinct(cards)
    ensures Distinct(Removed(cards, card))
    ensures forall other :: other in Removed(cards, card) <==> other in cards && other != card
  {
    var rest, at := Removed(cards, card), PlaceOf(cards, card);
    if at < |cards| {
      forall i | 0 <= i < |rest| ensures rest[i] == cards[if i < at then i else i + 1] {
      }
      forall other | other in cards && other != card ensures other in rest {
        var k :| 0 <= k < |cards| && cards[k] == other;
        assert rest[if k < at then k else k - 1] == other;
      }
    }
  }

  lemma RemovedHead(cards: seq<Card>)
    requires cards != []
    ensures Removed(cards, cards[0]) == cards[1..]
  {
  }

  lemma {:induction false} PlaceAfter(placed: seq<Card>, rest: seq<Card>, card: Card)
    requires card !in placed
    ensures PlaceOf(placed + rest, card) == |placed| + PlaceOf(rest, card)
  {
    if placed == [] {
      assert placed + rest == rest;
    } else {
      assert (placed + rest)[1..] == placed[1..] + rest;
      PlaceAfter(placed[1..], rest, card);
    }
  }

  lemma WithoutAfter(placed: seq<Card>, rest: seq<Card>, at: nat)
    requires at < |rest|
    ensures Without(placed + rest, |placed| + at) == placed + Without(rest, at)
  {
    var all, there := placed + rest, |placed| + at;
    assert all[..there] == placed + rest[..at];
    assert all[there + 1..] == rest[at + 1..];
  }

  lemma RemovedAfter(placed: seq<Card>, rest: seq<Card>, card: Card)
    requires card !in placed
    ensures Removed(placed + rest, card) == placed + Removed(rest, card)
  {
    hide PlaceOf, Without;
    PlaceAfter(placed, rest, card);
    var at := PlaceOf(rest, card);
    if at < |rest| {
      WithoutAfter(placed, rest, at);
    }
  }

  /** A card put before what comes next stands right after those placed. */
  lemma InsertedNext(placed: seq<Card>, rest: seq<Card>, card: Card)
    requires card !in placed && Distinct(rest) && (rest != [] ==> rest[0] != card && rest[0] !in placed)
    ensures Inserted(placed + rest, card, Head(rest)) == placed + [card] + Removed(rest, card)
    ensures Head(Removed(rest, card)) == Head(rest)
  {
    RemovedAfter(placed, rest, card);
    var left := Removed(rest, card);
    if rest != [] {
      assert PlaceOf(rest, card) > 0;
      assert left[0] == rest[0];
      PlaceIs(placed + left, rest[0], |placed|);
    }
    var at := |placed|;
    assert (placed + left)[..at] == placed && (placed + left)[at..] == left;
  }

  class Stage {
    var children: seq<Card>
    /** The cards taken out or put in so far. */
    ghost var touched: set<Card>

    constructor (children: seq<Card>)
      ensures this.children == children && touched == {}
    {
      this.children, touched := children, {};
    }

    method Remove(child: Card)
      modifies this
      ensures children == Removed(old(children), child)
      ensures touched == old(touched) + {child}
    {
      children, touched := Removed(children, child), touched + {child};
    }

    method InsertBefore(card: Card, next: Option<Card>)
      modifies this
      ensures children == Inserted(old(children), card, next)
      ensures touched == old(touched) + {card}
    {
      children, touched := Inserted(children, card, next), touched + {card};
    }

    function NextSibling(card: Card): Option<Card>
      reads this
    {
      var at := PlaceOf(children, card);
      if at + 1 < |children| then Some(children[at + 1]) else None
    }

    /** The cards that left are taken out; the others stay in their order. */
    method TakeOut(wanted: seq<Card>)
      requires Distinct(children)
      modifies this
      ensures children == Among(old(children), wanted)
      ensures touched == old(touched) + (CardsOf(old(children)) - CardsOf(wanted))
    {
      hide Removed, Among, CardsOf, Distinct;
      var all := children;
      var at := 0;
      NoneAmong(wanted);
      assert all[..0] == [];
      while at < |all|
        invariant 0 <= at <= |all| && children == Among(all[..at], wanted) + all[at..]
        invariant touched == old(touched) + (CardsOf(all[..at]) - CardsOf(wanted))
      {
        AmongNext(all, wanted, at);
        CardsNext(all, wanted, at);
        if all[at] !in wanted {
          Remove(all[at]);
        }
        at := at + 1;
      }
      assert all[..at] == all && Among(all, wanted) + all[at..] == Among(all, wanted);
    }

    method Place(wanted: seq<Card>)
      requires Distinct(children) && Distinct(wanted)
      modifies this
      ensures children == wanted
      ensures touched == old(touched) + Touched(old(children), wanted)
    {
      hide Distinct, Removed, Inserted, Among, PlaceOf;
      TakeOut(wanted);
      ghost var rest := children;
      ghost var before := touched;
      AmongHolds(old(children), wanted);
      var next := if children == [] then None else Some(children[0]);
      var at := 0;
      assert wanted[..0] == [];
      while at < |wanted|
        invariant 0 <= at <= |wanted| && children == wanted[..at] + rest && next == Head(rest)
        invariant Distinct(rest) && forall card :: card in rest ==> card in wanted[at..]
        invariant touched + CardsOf(PutIn(rest, wanted[at..])) ==
                  before + CardsOf(PutIn(Among(old(children), wanted), wanted))
      {
        var card := wanted[at];
        PlaceNext(wanted, at, rest);
        if next == Some(card) {
          next := NextSibling(card);
        } else {
          InsertBefore(card, next);
        }
        rest := Removed(rest, card);
        at := at + 1;
      }
      NoneLeft(wanted, rest);
    }
  }

  lemma {:induction false} AmongAppend(cards: seq<Card>, card: Card, others: seq<Card>)
    ensures Among(cards + [card], others) ==
            if card in others then Among(cards, others) + [card] else Among(cards, others)
  {
    if cards != [] {
      assert (cards + [card])[1..] == cards[1..] + [card];
      AmongAppend(cards[1..], card, others);
    }
  }

  lemma NoneAmong(others: seq<Card>)
    ensures Among([], others) == [] && CardsOf([]) == {}
  {
  }

  lemma CardsNext(all: seq<Card>, wanted: seq<Card>, at: nat)
    requires at < |all|
    ensures CardsOf(all[..at + 1]) - CardsOf(wanted) ==
            (CardsOf(all[..at]) - CardsOf(wanted)) + if all[at] in wanted then {} else {all[at]}
  {
    assert all[..at + 1] == all[..at] + [all[at]];
  }

  lemma NotAmong(all: seq<Card>, wanted: seq<Card>, at: nat)
    requires Distinct(all) && at < |all|
    ensures all[at] !in Among(all[..at], wanted)
  {
    NotBefore(all, at);
    hide *;
  }

  lemma AmongGrows(all: seq<Card>, wanted: seq<Card>, at: nat)
    requires at < |all|
    ensures Among(all[..at + 1], wanted) ==
            if all[at] in wanted then Among(all[..at], wanted) + [all[at]] else Among(all[..at], wanted)
  {
    hide *;
    assert all[..at + 1] == all[..at] + [all[at]];
    AmongAppend(all[..at], all[at], wanted);
  }

  lemma RemovedNext(kept: seq<Card>, card: Card, rest: seq<Card>)
    requires card !in kept
    ensures Removed(kept + ([card] + rest), card) == kept + rest
  {
    hide *;
    RemovedAfter(kept, [card] + rest, card);
    RemovedHead([card] + rest);
    assert ([card] + rest)[1..] == rest;
  }

  lemma AmongNext(all: seq<Card>, wanted: seq<Card>, at: nat)
    requires Distinct(all) && at < |all|
    ensures Among(all[..at + 1], wanted) ==
            if all[at] in wanted then Among(all[..at], wanted) + [all[at]] else Among(all[..at], wanted)
    ensures all[at] in wanted ==>
      Among(all[..at], wanted) + all[at..] == Among(all[..at + 1], wanted) + all[at + 1..]
    ensures all[at] !in wanted ==>
      Removed(Among(all[..at], wanted) + all[at..], all[at]) == Among(all[..at + 1], wanted) + all[at + 1..]
  {
    hide *;
    var kept, card, rest := Among(all[..at], wanted), all[at], all[at + 1..];
    AmongGrows(all, wanted, at);
    assert all[at..] == [card] + rest;
    if card in wanted {
      Regroup(kept, card, rest);
    } else {
      NotAmong(all, wanted, at);
      RemovedNext(kept, card, rest);
    }
  }

  lemma NoCards(cards: seq<Card>)
    requires forall card :: card !in cards
    ensures cards == []
  {
    if cards != [] {
      HasCard(cards);
    }
  }

  lemma HasCard(cards: seq<Card>)
    requires cards != []
    ensures exists card :: card in cards
  {
    assert cards[0] in cards;
  }

  lemma Regroup(a: seq<Card>, card: Card, b: seq<Card>)
    ensures a + [card] + b == a + ([card] + b)
  {
  }

  lemma NotBefore(cards: seq<Card>, at: nat)
    requires Distinct(cards) && at < |cards|
    ensures cards[at] !in cards[..at]
  {
  }

  lemma {:induction false} AmongHolds(cards: seq<Card>, others: seq<Card>)
    requires Distinct(cards)
    ensures Distinct(Among(cards, others))
  {
    if cards != [] {
      AmongHolds(cards[1..], others);
      assert cards[0] !in cards[1..];
    }
  }

  lemma PlaceHead(wanted: seq<Card>, at: nat, rest: seq<Card>)
    requires at < |wanted| && Distinct(wanted) && Head(rest) == Some(wanted[at])
    ensures var left := Removed(rest, wanted[at]);
            && wanted[..at + 1] + left == wanted[..at] + rest
            && PlaceOf(wanted[..at] + rest, wanted[at]) == at
            && Head(left) == if |rest| > 1 then Some(rest[1]) else None
  {
    hide PlaceOf, Removed;
    NotBefore(wanted, at);
    hide Distinct;
    RemovedHead(rest);
    HeadPlaced(wanted[..at], rest);
    assert wanted[..at + 1] == wanted[..at] + [wanted[at]];
  }

  lemma HeadPlaced(placed: seq<Card>, rest: seq<Card>)
    requires rest != [] && rest[0] !in placed
    ensures placed + [rest[0]] + rest[1..] == placed + rest
    ensures PlaceOf(placed + rest, rest[0]) == |placed|
  {
    assert rest == [rest[0]] + rest[1..];
    Regroup(placed, rest[0], rest[1..]);
    PlaceAfter(placed, rest, rest[0]);
  }

  lemma PlaceOther(wanted: seq<Card>, at: nat, rest: seq<Card>)
    requires at < |wanted| && Distinct(wanted) && Distinct(rest) && Head(rest) != Some(wanted[at])
    requires forall card :: card in rest ==> card in wanted[at..]
    ensures var left := Removed(rest, wanted[at]);
            && Inserted(wanted[..at] + rest, wanted[at], Head(rest)) == wanted[..at + 1] + left
            && Head(left) == Head(rest)
  {
    hide PlaceOf, Removed, Inserted;
    var card := wanted[at];
    assert wanted[..at + 1] == wanted[..at] + [card];
    assert card !in wanted[..at];
    if rest != [] {
      assert rest[0] in wanted[at..];
    }
    InsertedNext(wanted[..at], rest, card);
  }

  /** One card placed: what is next, what is put in, and what is left. */
  lemma PlaceNext(wanted: seq<Card>, at: nat, rest: seq<Card>)
    requires at < |wanted| && Distinct(wanted) && Distinct(rest)
    requires forall card :: card in rest ==> card in wanted[at..]
    ensures var card := wanted[at];
            var left := Removed(rest, card);
            && Distinct(left) && (forall other :: other in left ==> other in wanted[at + 1..])
            && CardsOf(PutIn(rest, wanted[at..])) ==
               (if Head(rest) == Some(card) then {} else {card}) + CardsOf(PutIn(left, wanted[at + 1..]))
            && (Head(rest) == Some(card) ==>
                  && wanted[..at + 1] + left == wanted[..at] + rest
                  && PlaceOf(wanted[..at] + rest, card) == at
                  && Head(left) == if |rest| > 1 then Some(rest[1]) else None)
            && (Head(rest) != Some(card) ==>
                  && Inserted(wanted[..at] + rest, card, Head(rest)) == wanted[..at + 1] + left
                  && Head(left) == Head(rest))
  {
    hide PlaceOf, Removed, Inserted, Distinct;
    RemovedHolds(rest, wanted[at]);
    assert wanted[at..][1..] == wanted[at + 1..] && wanted[at..][0] == wanted[at];
    assert wanted[at..] == [wanted[at]] + wanted[at + 1..];
    if Head(rest) == Some(wanted[at]) {
      PlaceHead(wanted, at, rest);
    } else {
      PlaceOther(wanted, at, rest);
    }
  }

  lemma NoneLeft(wanted: seq<Card>, rest: seq<Card>)
    requires forall card :: card in rest ==> card in wanted[|wanted|..]
    ensures rest == [] && wanted[..|wanted|] + rest == wanted
    ensures PutIn(rest, wanted[|wanted|..]) == []
  {
    NoCards(rest);
  }

  lemma {:induction false} PutInAreWanted(rest: seq<Card>, wanted: seq<Card>, card: Card)
    requires card in PutIn(rest, wanted)
    ensures card in wanted
    decreases |wanted|
  {
    hide Removed;
    if card != wanted[0] {
      PutInAreWanted(Removed(rest, wanted[0]), wanted[1..], card);
    }
  }

  lemma {:induction false} AmongAlike(cards: seq<Card>, a: seq<Card>, b: seq<Card>)
    requires forall card :: card in cards ==> (card in a <==> card in b)
    ensures Among(cards, a) == Among(cards, b)
  {
    if cards != [] {
      AmongAlike(cards[1..], a, b);
    }
  }

  ghost predicate NonePutIn(kept: seq<Card>, wanted: seq<Card>) {
    forall card :: card in PutIn(kept, wanted) ==> card !in kept
  }

  /**
   Of the cards that stay, none is put in as `wanted` are placed exactly when they already stood in the
   order wanted.
   */
  lemma {:induction false} StayingAreLeftAlone(kept: seq<Card>, wanted: seq<Card>)
    requires Distinct(kept) && Distinct(wanted) && forall card :: card in kept ==> card in wanted
    ensures NonePutIn(kept, wanted) <==> kept == Among(wanted, kept)
    decreases |wanted|
  {
    hide Removed;
    if wanted == [] {
      NoCards(kept);
    } else {
      var w, later := wanted[0], wanted[1..];
      var left := Removed(kept, w);
      assert wanted == [w] + later && w !in later;
      RemovedHolds(kept, w);
      StayingAreLeftAlone(left, later);
      AmongAlike(later, kept, left);
      if Head(kept) == Some(w) {
        RemovedHead(kept);
        assert kept == [w] + left;
        HeadLeft(kept, wanted);
      } else {
        OtherLeft(kept, wanted);
      }
    }
  }

  lemma HeadLeft(kept: seq<Card>, wanted: seq<Card>)
    requires wanted != [] && Head(kept) == Some(wanted[0]) && Distinct(kept) && Distinct(wanted)
    ensures NonePutIn(kept, wanted) <==> NonePutIn(Removed(kept, wanted[0]), wanted[1..])
  {
    hide Removed;
    var left := Removed(kept, wanted[0]);
    RemovedHolds(kept, wanted[0]);
    assert PutIn(kept, wanted) == PutIn(left, wanted[1..]);
    forall card | card in PutIn(left, wanted[1..])
      ensures card in kept <==> card in left
    {
      PutInAreWanted(left, wanted[1..], card);
      assert wanted[0] !in wanted[1..];
    }
  }

  lemma OtherLeft(kept: seq<Card>, wanted: seq<Card>)
    requires wanted != [] && Head(kept) != Some(wanted[0]) && Distinct(kept) && Distinct(wanted)
    ensures wanted[0] in kept ==> !NonePutIn(kept, wanted)
    ensures wanted[0] !in kept ==>
      Removed(kept, wanted[0]) == kept && (NonePutIn(kept, wanted) <==> NonePutIn(kept, wanted[1..]))
  {
    hide Distinct;
    var left := Removed(kept, wanted[0]);
    assert PutIn(kept, wanted) == [wanted[0]] + PutIn(left, wanted[1..]);
    assert wanted[0] in PutIn(kept, wanted);
  }

  /** The cards placing `wanted` takes out of `children` or puts in them. */
  ghost function Touched(children: seq<Card>, wanted: seq<Card>): set<Card> {
    (CardsOf(children) - CardsOf(wanted)) + CardsOf(PutIn(Among(children, wanted), wanted))
  }

  /** Placing touches no card that stays exactly when those that stay already stood in the order wanted. */
  lemma StayingTouchedWhenOutOfOrder(children: seq<Card>, wanted: seq<Card>)
    requires Distinct(children) && Distinct(wanted)
    ensures (forall card :: card in children && card in wanted ==> card !in Touched(children, wanted)) <==>
            Among(children, wanted) == Among(wanted, children)
  {
    hide Distinct, PutIn;
    var kept := Among(children, wanted);
    AmongHolds(children, wanted);
    StayingAreLeftAlone(kept, wanted);
    AmongAlike(wanted, kept, children);
    if forall card :: card in children && card in wanted ==> card !in Touched(children, wanted) {
      forall card | card in PutIn(kept, wanted) ensures card !in kept {
        assert card in CardsOf(PutIn(kept, wanted));
      }
    } else {
      var card :| card in children && card in wanted && card in Touched(children, wanted);
      assert card in PutIn(kept, wanted) && card in kept;
    }
  }
}
