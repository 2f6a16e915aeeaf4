/**
 The control-to-theme mapping computed by seed_capability_themes_if_empty in
 backend/catalog_seeder.py: for every control, every NIST family among its mappings, the
 family's primary theme and then its supporting themes, skipping (theme, control) pairs
 already mapped.  Python walks the family set in an order of its own.
 */
module ThemeMapping {
  import opened Options

  type ThemeId = nat

  datatype Relevance = Primary | Supporting

  datatype Mapping = Mapping(theme: ThemeId, scfId: string, relevance: Relevance)

  type Pair = (ThemeId, string)

  /** A control of the guidance file; a missing identifier is the empty string. */
  datatype Control = Control(scfId: string, nistControls: seq<string>)

  datatype FamilyThemes = FamilyThemes(primary: Option<string>, supporting: seq<string>)

  /** The inputs other than the controls: family table of the file, theme ids of the database. */
  datatype Themes = Themes(families: map<string, FamilyThemes>, ids: map<string, ThemeId>)

  /** The text before the first '-', or all of it. */
  function Family(nist: string): string {
    if nist == "" || nist[0] == '-' then "" else [nist[0]] + Family(nist[1..])
  }

  /** "AC-2" and "AC-17(1)" belong to AC; an identifier without a dash is its own family. */
  lemma {:induction false} FamilyIsBeforeTheDash(family: string, rest: string)
    requires '-' !in family
    ensures Family(family + "-" + rest) == family && Family(family) == family
  {
    var nist := family + "-" + rest;
    if family != "" {
      assert family[0] in family && nist[0] == family[0] && nist[1..] == family[1..] + "-" + rest;
      assert forall c :: c in family[1..] ==> c in family;
      FamilyIsBeforeTheDash(family[1..], rest);
      assert family == [family[0]] + family[1..];
    }
  }

  function FamiliesOf(c: Control): set<string> {
    set n | n in c.nistControls :: Family(n)
  }

  function SupportingRows(t: Themes, scfId: string, codes: seq<string>): seq<Mapping> {
    if codes == [] then []
    else if codes[0] in t.ids then [Mapping(t.ids[codes[0]], scfId, Supporting)] + SupportingRows(t, scfId, codes[1..])
    else SupportingRows(t, scfId, codes[1..])
  }

  /** The rows one family proposes for one control, in the order the code tries them. */
  function FamilyRows(t: Themes, scfId: string, family: string): seq<Mapping> {
    if family !in t.families then []
    else
      var themes := t.families[family];
      var supporting := SupportingRows(t, scfId, themes.supporting);
      if themes.primary.Some? && themes.primary.value != "" && themes.primary.value in t.ids
      then [Mapping(t.ids[themes.primary.value], scfId, Primary)] + supporting
      else supporting
  }

  function OrderRows(t: Themes, scfId: string, order: seq<string>): seq<Mapping> {
    if order == [] then [] else OrderRows(t, scfId, order[..|order| - 1]) + FamilyRows(t, scfId, order[|order| - 1])
  }

  function ControlRows(t: Themes, c: Control, order: seq<string>): seq<Mapping> {
    if c.scfId == "" then [] else OrderRows(t, c.scfId, order)
  }

  function AllRows(t: Themes, controls: seq<Control>, orders: seq<seq<string>>): seq<Mapping>
    requires |orders| == |controls|
  {
    if controls == [] then []
    else
      AllRows(t, controls[..|controls| - 1], orders[..|orders| - 1])
      + ControlRows(t, controls[|controls| - 1], orders[|orders| - 1])
  }

  /** An order in which Python may walk a set. */
  ghost predicate Walks(order: seq<string>, families: set<string>) {
    && (forall f :: f in order <==> f in families)
    && (forall i, j :: 0 <= i < j < |order| ==> order[i] != order[j])
  }

  function PairOf(m: Mapping): Pair {
    (m.theme, m.scfId)
  }

  function Pairs(rows: seq<Mapping>): set<Pair> {
    set m | m in rows :: PairOf(m)
  }

  /** Add the proposed rows one by one, skipping pairs already there. */
  function Dedup(rows: seq<Mapping>, proposed: seq<Mapping>): seq<Mapping>
    decreases |proposed|
  {
    if proposed == [] then rows
    else Dedup(if PairOf(proposed[0]) in Pairs(rows) then rows else rows + [proposed[0]], proposed[1..])
  }

  ghost predicate OneRowPerPair(rows: seq<Mapping>) {
    forall i, j :: 0 <= i < j < |rows| ==> PairOf(rows[i]) != PairOf(rows[j])
  }

  lemma {:induction false} DedupSplits(rows: seq<Mapping>, a: seq<Mapping>, b: seq<Mapping>)
    ensures Dedup(rows, a + b) == Dedup(Dedup(rows, a), b)
    decreases |a|
  {
    if a == [] {
      assert a + b == b;
    } else {
      assert (a + b)[1..] == a[1..] + b;
      DedupSplits(if PairOf(a[0]) in Pairs(rows) then rows else rows + [a[0]], a[1..], b);
    }
  }

  lemma PairsGrow(rows: seq<Mapping>, m: Mapping)
    ensures Pairs(rows + [m]) == Pairs(rows) + {PairOf(m)}
  {
    assert forall x :: x in rows + [m] <==> x in rows || x == m;
    assert m in rows + [m];
  }

  /** Deduplication loses no pair, keeps what was there and takes rows from nowhere else. */
  lemma {:induction false} DedupKeepsPairs(rows: seq<Mapping>, proposed: seq<Mapping>)
    ensures Pairs(Dedup(rows, proposed)) == Pairs(rows) + Pairs(proposed)
    ensures rows <= Dedup(rows, proposed)
    ensures forall m :: m in Dedup(rows, proposed) ==> m in rows || m in proposed
    decreases |proposed|
  {
    if proposed != [] {
      var next := if PairOf(proposed[0]) in Pairs(rows) then rows else rows + [proposed[0]];
      DedupKeepsPairs(next, proposed[1..]);
      PairsGrow(rows, proposed[0]);
      assert Pairs(proposed) == {PairOf(proposed[0])} + Pairs(proposed[1..]);
    }
  }

  /** And it repeats none. */
  lemma {:induction false} DedupRepeatsNoPair(rows: seq<Mapping>, proposed: seq<Mapping>)
    requires OneRowPerPair(rows)
    ensures OneRowPerPair(Dedup(rows, proposed))
    decreases |proposed|
  {
    if proposed != [] {
      assert forall i :: 0 <= i < |rows| ==> rows[i] in rows && PairOf(rows[i]) in Pairs(rows);
      DedupRepeatsNoPair(if PairOf(proposed[0]) in Pairs(rows) then rows else rows + [proposed[0]], proposed[1..]);
    }
  }

  // ---------------------------------------------------------------------------
  // Which pairs, and with which relevance
  // ---------------------------------------------------------------------------

  ghost predicate GivesPrimary(t: Themes, family: string, theme: ThemeId) {
    && family in t.families && t.families[family].primary.Some?
    && var code := t.families[family].primary.value;
       code != "" && code in t.ids && t.ids[code] == theme
  }

  ghost predicate GivesSupporting(t: Themes, family: string, theme: ThemeId) {
    family in t.families &&
    exists code :: code in t.families[family].supporting && code in t.ids && t.ids[code] == theme
  }

  ghost predicate Gives(t: Themes, family: string, theme: ThemeId) {
    GivesPrimary(t, family, theme) || GivesSupporting(t, family, theme)
  }

  /** Within one family the primary theme is tried first. */
  ghost function FamilyRelevance(t: Themes, family: string, theme: ThemeId): Relevance {
    if GivesPrimary(t, family, theme) then Primary else Supporting
  }

  lemma {:induction false} SupportingRowsAre(t: Themes, scfId: string, codes: seq<string>, m: Mapping)
    ensures m in SupportingRows(t, scfId, codes) <==>
            && m.scfId == scfId && m.relevance.Supporting?
            && exists code :: code in codes && code in t.ids && t.ids[code] == m.theme
  {
    if codes != [] {
      SupportingRowsAre(t, scfId, codes[1..], m);
      assert forall code :: code in codes <==> code == codes[0] || code in codes[1..];
    }
  }

  /** What one family adds on top of any rows: only its own themes, each with the family's relevance. */
  lemma FamilyAdds(t: Themes, rows: seq<Mapping>, scfId: string, family: string, m: Mapping)
    requires m in Dedup(rows, FamilyRows(t, scfId, family)) && m !in rows
    ensures m.scfId == scfId && Gives(t, family, m.theme) && m.relevance == FamilyRelevance(t, family, m.theme)
  {
    var proposed := FamilyRows(t, scfId, family);
    DedupKeepsPairs(rows, proposed);
    var supporting := SupportingRows(t, scfId, t.families[family].supporting);
    SupportingRowsAre(t, scfId, t.families[family].supporting, m);
    if m.relevance.Supporting? && GivesPrimary(t, family, m.theme) {
      var first := Mapping(m.theme, scfId, Primary);
      assert proposed == [first] + supporting;
      DedupSplits(rows, [first], supporting);
      DedupKeepsPairs(rows, [first]);
      assert PairOf(first) in Pairs([first]);
      PresentPairsStay(Dedup(rows, [first]), supporting, m);
      assert false;
    }
  }

  /** A row whose pair was there before is one of the rows that were there before. */
  lemma {:induction false} PresentPairsStay(rows: seq<Mapping>, proposed: seq<Mapping>, m: Mapping)
    requires PairOf(m) in Pairs(rows) && m in Dedup(rows, proposed)
    ensures m in rows
    decreases |proposed|
  {
    if proposed != [] {
      var next := if PairOf(proposed[0]) in Pairs(rows) then rows else rows + [proposed[0]];
      PairsGrow(rows, proposed[0]);
      PresentPairsStay(next, proposed[1..], m);
    }
  }

  lemma FamilyPairs(t: Themes, scfId: string, family: string, p: Pair)
    ensures p in Pairs(FamilyRows(t, scfId, family)) <==> p.1 == scfId && Gives(t, family, p.0)
  {
    if family in t.families {
      SupportingRowsAre(t, scfId, t.families[family].supporting, Mapping(p.0, p.1, Supporting));
      var rows := FamilyRows(t, scfId, family);
      var primary := Mapping(p.0, p.1, Primary);
      if p.1 == scfId && GivesPrimary(t, family, p.0) { assert rows[0] == primary && primary in rows; }
      if p.1 == scfId && GivesSupporting(t, family, p.0) { assert Mapping(p.0, p.1, Supporting) in rows; }
      forall m | m in rows && PairOf(m) == p
        ensures p.1 == scfId && Gives(t, family, p.0)
      {
        SupportingRowsAre(t, scfId, t.families[family].supporting, m);
      }
    }
  }

  ghost predicate SomeFamilyGives(t: Themes, order: seq<string>, theme: ThemeId) {
    exists f :: f in order && Gives(t, f, theme)
  }

  lemma {:induction false} OrderPairs(t: Themes, scfId: string, order: seq<string>, p: Pair)
    ensures p in Pairs(OrderRows(t, scfId, order)) <==> p.1 == scfId && SomeFamilyGives(t, order, p.0)
  {
    if order != [] {
      var n := |order| - 1;
      OrderPairs(t, scfId, order[..n], p);
      FamilyPairs(t, scfId, order[n], p);
      PairsOfSum(OrderRows(t, scfId, order[..n]), FamilyRows(t, scfId, order[n]));
      assert forall f :: f in order <==> f in order[..n] || f == order[n];
    }
  }

  lemma PairsOfSum(a: seq<Mapping>, b: seq<Mapping>)
    ensures Pairs(a + b) == Pairs(a) + Pairs(b)
  {
  }

  /** Some control with this identifier has a family that lists the theme. */
  ghost predicate Mapped(t: Themes, controls: seq<Control>, p: Pair) {
    exists c, f :: c in controls && c.scfId != "" && c.scfId == p.1 && f in FamiliesOf(c) && Gives(t, f, p.0)
  }

  /** Some entry of some control with this identifier is a control of a family that lists the theme. */
  lemma MappedByAnEntry(t: Themes, c: Control, family: string, rest: string, theme: ThemeId)
    requires c.scfId != "" && '-' !in family && Gives(t, family, theme)
    requires family + "-" + rest in c.nistControls || family in c.nistControls
    ensures Mapped(t, [c], (theme, c.scfId))
  {
    FamilyIsBeforeTheDash(family, rest);
    assert family in FamiliesOf(c) && c in [c];
  }

  ghost predicate OrdersWalk(controls: seq<Control>, orders: seq<seq<string>>) {
    |orders| == |controls| && forall i :: 0 <= i < |controls| ==> Walks(orders[i], FamiliesOf(controls[i]))
  }

  /** The pairs do not depend on the order Python walks the families in. */
  lemma {:induction false} PairsIgnoreTheOrder(t: Themes, controls: seq<Control>, orders: seq<seq<string>>, p: Pair)
    requires OrdersWalk(controls, orders)
    ensures p in Pairs(AllRows(t, controls, orders)) <==> Mapped(t, controls, p)
  {
    if controls != [] {
      var n := |controls| - 1;
      var before, c := controls[..n], controls[n];
      PairsIgnoreTheOrder(t, before, orders[..n], p);
      OrderPairs(t, c.scfId, orders[n], p);
      PairsOfSum(AllRows(t, before, orders[..n]), ControlRows(t, c, orders[n]));
      assert Walks(orders[n], FamiliesOf(c));
      assert forall d :: d in controls <==> d in before || d == c;
    }
  }

  /** Where a row's relevance comes from. */
  ghost predicate HasOrigin(t: Themes, controls: seq<Control>, m: Mapping) {
    exists c, f :: c in controls && c.scfId == m.scfId && f in FamiliesOf(c) && Gives(t, f, m.theme)
                   && m.relevance == FamilyRelevance(t, f, m.theme)
  }

  lemma {:induction false} OrderAdds(t: Themes, rows: seq<Mapping>, scfId: string, order: seq<string>, m: Mapping)
    returns (f: string)
    requires m in Dedup(rows, OrderRows(t, scfId, order)) && m !in rows
    ensures f in order && m.scfId == scfId && Gives(t, f, m.theme) && m.relevance == FamilyRelevance(t, f, m.theme)
    decreases |order|
  {
    var n := |order| - 1;
    DedupKeepsPairs(rows, OrderRows(t, scfId, order));
    DedupSplits(rows, OrderRows(t, scfId, order[..n]), FamilyRows(t, scfId, order[n]));
    var earlier := Dedup(rows, OrderRows(t, scfId, order[..n]));
    if m in earlier {
      f := OrderAdds(t, rows, scfId, order[..n], m);
    } else {
      f := order[n];
      FamilyAdds(t, earlier, scfId, f, m);
    }
  }

  lemma {:induction false} RowsHaveAnOrigin(t: Themes, controls: seq<Control>, orders: seq<seq<string>>, m: Mapping)
    requires OrdersWalk(controls, orders)
    requires m in Dedup([], AllRows(t, controls, orders))
    ensures HasOrigin(t, controls, m)
  {
    if controls != [] {
      var n := |controls| - 1;
      var c := controls[n];
      var earlier := Dedup([], AllRows(t, controls[..n], orders[..n]));
      DedupSplits([], AllRows(t, controls[..n], orders[..n]), ControlRows(t, c, orders[n]));
      if m in earlier {
        RowsHaveAnOrigin(t, controls[..n], orders[..n], m);
        var d, f :| d in controls[..n] && d.scfId == m.scfId && f in FamiliesOf(d) && Gives(t, f, m.theme)
                    && m.relevance == FamilyRelevance(t, f, m.theme);
        assert d in controls;
      } else {
        var f := OrderAdds(t, earlier, c.scfId, orders[n], m);
        assert Walks(orders[n], FamiliesOf(c));
        assert c in controls && f in FamiliesOf(c);
      }
    }
  }

  /** When all families that list the theme for this identifier agree on its relevance, that is the row's relevance. */
  lemma UncontestedRelevance(
      t: Themes, controls: seq<Control>, orders: seq<seq<string>>, m: Mapping, relevance: Relevance)
    requires OrdersWalk(controls, orders)
    requires m in Dedup([], AllRows(t, controls, orders))
    requires forall c, f :: c in controls && c.scfId == m.scfId && f in FamiliesOf(c) && Gives(t, f, m.theme) ==>
               FamilyRelevance(t, f, m.theme) == relevance
    ensures m.relevance == relevance
  {
    RowsHaveAnOrigin(t, controls, orders, m);
  }

  lemma {:induction false} WalkFrom(families: set<string>, first: string) returns (order: seq<string>)
    requires first in families
    ensures Walks(order, families) && order[0] == first
    decreases families
  {
    var rest := families - {first};
    if rest == {} {
      order := [first];
    } else {
      var next :| next in rest;
      var tail := WalkFrom(rest, next);
      order := [first] + tail;
    }
  }

  lemma {:induction false} FirstFamilyComesFirst(t: Themes, scfId: string, order: seq<string>)
    requires order != []
    ensures FamilyRows(t, scfId, order[0]) <= OrderRows(t, scfId, order)
  {
    if |order| > 1 {
      FirstFamilyComesFirst(t, scfId, order[..|order| - 1]);
    }
  }

  /**
   When they disagree, the set order decides: whichever of the control's families Python
   happens to walk first lends the row its relevance, and any of them may be that one.
   */
  lemma ContestedRelevance(t: Themes, c: Control, family: string, theme: ThemeId) returns (order: seq<string>)
    requires c.scfId != "" && family in FamiliesOf(c) && Gives(t, family, theme)
    ensures Walks(order, FamiliesOf(c))
    ensures Mapping(theme, c.scfId, FamilyRelevance(t, family, theme)) in Dedup([], AllRows(t, [c], [order]))
  {
    order := WalkFrom(FamiliesOf(c), family);
    FirstFamilyComesFirst(t, c.scfId, order);
    var all, mine := OrderRows(t, c.scfId, order), FamilyRows(t, c.scfId, family);
    assert all == mine + all[|mine|..];
    DedupSplits([], mine, all[|mine|..]);
    DedupKeepsPairs(Dedup([], mine), all[|mine|..]);
    var m := AloneInItsFamily(t, c.scfId, family, theme);
    assert m in Dedup([], all);
    assert AllRows(t, [], []) + ControlRows(t, c, order) == all;
  }

  lemma AloneInItsFamily(t: Themes, scfId: string, family: string, theme: ThemeId) returns (m: Mapping)
    requires Gives(t, family, theme)
    ensures m == Mapping(theme, scfId, FamilyRelevance(t, family, theme))
    ensures m in Dedup([], FamilyRows(t, scfId, family))
  {
    var mine := FamilyRows(t, scfId, family);
    DedupKeepsPairs([], mine);
    FamilyPairs(t, scfId, family, (theme, scfId));
    m :| m in Dedup([], mine) && PairOf(m) == (theme, scfId);
    FamilyAdds(t, [], scfId, family, m);
  }

  // ---------------------------------------------------------------------------
  // The loops
  // ---------------------------------------------------------------------------

  lemma FamiliesGrow(c: Control, k: nat)
    requires k < |c.nistControls|
    ensures FamiliesOf(Control(c.scfId, c.nistControls[..k + 1]))
         == FamiliesOf(Control(c.scfId, c.nistControls[..k])) + {Family(c.nistControls[k])}
  {
    var shorter, longer := c.nistControls[..k], c.nistControls[..k + 1];
    assert longer == shorter + [c.nistControls[k]];
    assert forall n :: n in longer <==> n in shorter || n == c.nistControls[k];
    assert c.nistControls[k] in longer;
  }

  class MappingSession {
    var seenPairs: set<Pair>
    var added: seq<Mapping>
    var mappingCount: nat

    ghost predicate Valid()
      reads this
    {
      seenPairs == Pairs(added) && mappingCount == |added|
    }

    constructor ()
      ensures Valid() && added == []
    {
      seenPairs, added, mappingCount := {}, [], 0;
    }

    method Propose(m: Mapping)
      requires Valid()
      modifies this
      ensures Valid() && added == Dedup(old(added), [m])
    {
      var pair := PairOf(m);
      if pair !in seenPairs {
        PairsGrow(added, m);
        seenPairs := seenPairs + {pair};
        added := added + [m];
        mappingCount := mappingCount + 1;
      }
    }

    method MapFamily(t: Themes, scfId: string, family: string)
      requires Valid()
      modifies this
      ensures Valid() && added == Dedup(old(added), FamilyRows(t, scfId, family))
    {
      if family !in t.families { return; }
      var themes := t.families[family];
      if themes.primary.Some? && themes.primary.value != "" && themes.primary.value in t.ids {
        var m := Mapping(t.ids[themes.primary.value], scfId, Primary);
        DedupSplits(added, [m], SupportingRows(t, scfId, themes.supporting));
        Propose(m);
      }
      assert Dedup(added, SupportingRows(t, scfId, themes.supporting))
          == Dedup(old(added), FamilyRows(t, scfId, family));
      for k := 0 to |themes.supporting|
        invariant Valid()
        invariant Dedup(added, SupportingRows(t, scfId, themes.supporting[k..]))
               == Dedup(old(added), FamilyRows(t, scfId, family))
      {
        var code := themes.supporting[k];
        var rest := themes.supporting[k..];
        assert rest[0] == code && rest[1..] == themes.supporting[k + 1..];
        if code in t.ids {
          DedupSplits(added, [Mapping(t.ids[code], scfId, Supporting)], SupportingRows(t, scfId, rest[1..]));
          Propose(Mapping(t.ids[code], scfId, Supporting));
        }
      }
    }

    /** One control: collect its families, then walk the set in whatever order it comes. */
    method MapControl(t: Themes, c: Control) returns (ghost order: seq<string>)
      requires Valid()
      modifies this
      ensures Valid() && Walks(order, FamiliesOf(c)) && added == Dedup(old(added), ControlRows(t, c, order))
    {
      var families := {};
      for k := 0 to |c.nistControls|
        invariant Valid() && added == old(added)
        invariant families == FamiliesOf(Control(c.scfId, c.nistControls[..k]))
      {
        FamiliesGrow(c, k);
        families := families + {Family(c.nistControls[k])};
      }
      assert c.nistControls[..|c.nistControls|] == c.nistControls;
      order := [];
      var remaining := families;
      while remaining != {}
        invariant Valid() && remaining <= families
        invariant Walks(order, families - remaining)
        invariant added == Dedup(old(added), ControlRows(t, c, order))
        decreases remaining
      {
        var family :| family in remaining;
        remaining := remaining - {family};
        if c.scfId != "" {
          DedupSplits(old(added), OrderRows(t, c.scfId, order), FamilyRows(t, c.scfId, family));
          MapFamily(t, c.scfId, family);
        }
        assert (order + [family])[..|order|] == order;
        order := order + [family];
      }
    }

    method MapAll(t: Themes, controls: seq<Control>) returns (ghost orders: seq<seq<string>>)
      requires Valid() && added == []
      modifies this
      ensures OrdersWalk(controls, orders) && added == Dedup([], AllRows(t, controls, orders))
      ensures mappingCount == |added| == |Pairs(added)|
      ensures OneRowPerPair(added)
      ensures forall p :: p in Pairs(added) <==> Mapped(t, controls, p)
      ensures forall m :: m in added ==> HasOrigin(t, controls, m)
    {
      orders := [];
      for k := 0 to |controls|
        invariant Valid() && OrdersWalk(controls[..k], orders)
        invariant added == Dedup([], AllRows(t, controls[..k], orders))
      {
        var order := MapControl(t, controls[k]);
        assert controls[..k + 1][..k] == controls[..k] && (orders + [order])[..k] == orders;
        DedupSplits([], AllRows(t, controls[..k], orders), ControlRows(t, controls[k], order));
        orders := orders + [order];
      }
      assert controls[..|controls|] == controls;
      Conclusions(t, controls, orders);
      CountPairs(added);
    }
  }

  lemma Conclusions(t: Themes, controls: seq<Control>, orders: seq<seq<string>>)
    requires OrdersWalk(controls, orders)
    ensures var rows := Dedup([], AllRows(t, controls, orders));
            && OneRowPerPair(rows)
            && (forall p :: p in Pairs(rows) <==> Mapped(t, controls, p))
            && (forall m :: m in rows ==> HasOrigin(t, controls, m))
  {
    var all := AllRows(t, controls, orders);
    DedupKeepsPairs([], all);
    DedupRepeatsNoPair([], all);
    forall p ensures p in Pairs(all) <==> Mapped(t, controls, p) { PairsIgnoreTheOrder(t, controls, orders, p); }
    forall m | m in Dedup([], all) ensures HasOrigin(t, controls, m) { RowsHaveAnOrigin(t, controls, orders, m); }
  }

  lemma {:induction false} CountPairs(rows: seq<Mapping>)
    requires OneRowPerPair(rows)
    ensures |Pairs(rows)| == |rows|
  {
    if rows != [] {
      var n := |rows| - 1;
      CountPairs(rows[..n]);
      PairsGrow(rows[..n], rows[n]);
      assert rows == rows[..n] + [rows[n]];
      assert PairOf(rows[n]) !in Pairs(rows[..n]);
    } else {
      assert Pairs(rows) == {};
    }
  }
}
