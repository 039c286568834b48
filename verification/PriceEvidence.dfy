/** The first tier on a parsed table (python/src/inspector/mapping/tier1.py, map and
    _resolve_prices): the structural evidence is the variation measured in the table's
    columns, and its score the capped one. */
module PriceEvidence {
  import opened Basics
  import opened Mappings
  import opened Tier1
  import Variation

  datatype Table = Table(rows: seq<map<Header, string>>, strip: string -> string) {
    function Cells(h: Header): (r: seq<string>)
      ensures |r| == |rows|
    {
      seq(|rows|, i requires 0 <= i < |rows| => if h in rows[i] then rows[i][h] else "")
    }

    function Cleaned(h: Header): (r: seq<string>)
      ensures |r| == |rows|
    {
      seq(|rows|, i requires 0 <= i < |rows| => strip(Cells(h)[i]))
    }

    function Ratio(h: Header, group: Option<Header>): real {
      Variation.RatioOf(Cleaned(h), if group.Some? then Some(Cells(group.value)) else None)
    }

    function Measured(v: Vocabulary): Vocabulary {
      v.(ratio := Ratio, confidence := StructuralConfidence)
    }

    /** The column `h` next to the column its rows are grouped by. */
    function Grouped(h: Header, group: Header): (c: Variation.Column)
      ensures c.Fits()
    {
      Variation.Column(Cells(group), Cleaned(h))
    }

    method Map(v: Vocabulary, headers: seq<Header>) returns (ms: seq<Mapping>)
      requires Distinct(headers)
      ensures ms == FirstTier(Measured(v), headers)
    {
      ms := MapTable(Measured(v), headers);
    }

    lemma RatioIsTheVaryingShare(h: Header, group: Header)
      requires Grouped(h, group).InformativeKeys() != {}
      ensures var c, r := Grouped(h, group), Ratio(h, Some(group));
        && 0.0 <= r <= 1.0
        && (r >= 0.5 <==> 2 * |c.VaryingKeys()| >= |c.InformativeKeys()|)
        && (r == 0.0 <==> forall k :: !c.Varies(k))
        && (r == 1.0 <==> forall k | k in c.InformativeKeys() :: c.Varies(k))
    {
      var c := Grouped(h, group);
      NoRowsNoGroups(c);
      c.DifferingIsVarying();
      c.ShareMeansVariation(Ratio(h, Some(group)));
      HalfOf(|c.VaryingKeys()|, |c.InformativeKeys()|, Ratio(h, Some(group)));
    }

    /** A price column whose header names neither role, or both: if structure makes it the trade price, it
        varies in at least half of the instruments that can be compared, if the settlement
        price in fewer; a column constant in every instrument never becomes the trade price,
        one that varies in all never the settlement price; and the score stays below what a
        name earns. */
    lemma StructureReadsTheTable(v: Vocabulary, headers: seq<Header>, h: Header, group: Header)
      requires var p := PricesOf(Measured(v), headers); p.group == Some(group) && h in p.Undecided()
      requires Grouped(h, group).InformativeKeys() != {}
      ensures var m, c := PricesOf(Measured(v), headers).Role(h), Grouped(h, group);
        && (m.canonical == Some(TRADE_PRICE) ==> 2 * |c.VaryingKeys()| >= |c.InformativeKeys()|)
        && (m.canonical == Some(SETTLEMENT_PRICE) ==> 2 * |c.VaryingKeys()| < |c.InformativeKeys()|)
        && ((forall k :: !c.Varies(k)) ==> m.canonical != Some(TRADE_PRICE))
        && ((forall k | k in c.InformativeKeys() :: c.Varies(k)) ==> m.canonical != Some(SETTLEMENT_PRICE))
        && (Holds(m) ==> m.tier == LOCAL && 0.55 <= m.confidence <= 0.90)
    {
      RatioIsTheVaryingShare(h, group);
      RoleByRatio(PricesOf(Measured(v), headers), h, Ratio(h, Some(group)));
    }
  }

  lemma RoleByRatio(p: Prices, h: Header, r: real)
    requires h in p.Undecided() && p.Ratio(h) == r && 0.0 <= r <= 1.0 && p.v.confidence == StructuralConfidence
    ensures var m := p.Role(h);
      && (m.canonical == Some(TRADE_PRICE) ==> r >= 0.5) && (m.canonical == Some(SETTLEMENT_PRICE) ==> r < 0.5)
      && (Holds(m) ==> m.tier == LOCAL && 0.55 <= m.confidence <= 0.90)
  {
    UndecidedRole(p, h);
    GreatestIsGreatest(p.Undecided(), p.Ratio, None);
    GreatestIsGreatest(p.Undecided(), p.Ratio, Some(0.5));
    StructureNeverOutranksAName(r, r);
    StructureNeverOutranksAName(1.0 - r, 1.0 - r);
  }

  lemma NoRowsNoGroups(c: Variation.Column)
    requires c.Fits() && c.InformativeKeys() != {}
    ensures c.cells != []
  {
    var k :| k in c.InformativeKeys();
  }

  lemma HalfOf(a: nat, b: nat, r: real)
    requires b > 0 && r == a as real / b as real
    ensures r >= 0.5 <==> 2 * a >= b
  {
    assert r * b as real == a as real;
  }
}
