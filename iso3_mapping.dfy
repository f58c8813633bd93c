/**
 * The alias table `ISO3_COUNTRY_MAPPING` of frontend/etl/transform_utils.py
 * and `get_iso3_code` over it, with the facts about this particular table.
 */
module Iso3Mapping {
  import opened Wrappers
  import opened Text
  import opened IdentityResolver

  /**
   * `ISO3_COUNTRY_MAPPING` as (alias, code) pairs in the dictionary's insertion
   * order, which decides ties. It is written as consecutive blocks of a few
   * source lines each; every alias is non-empty and starts with a non-space
   * character, so none of them normalizes to the empty string.
   */
  function AliasTable(): (t: seq<(string, string)>)
    ensures |t| == 153 && NonBlank(t)
  {
    NonBlankAppend(Block0(), Block1());
    NonBlankAppend(Block0() + Block1(), Block2());
    NonBlankAppend(Block0() + Block1() + Block2(), Block3());
    NonBlankAppend(Block0() + Block1() + Block2() + Block3(), Block4());
    NonBlankAppend(Block0() + Block1() + Block2() + Block3() + Block4(), Block5());
    NonBlankAppend(Block0() + Block1() + Block2() + Block3() + Block4() + Block5(), Block6());
    NonBlankAppend(Block0() + Block1() + Block2() + Block3() + Block4() + Block5() + Block6(), Block7());
    NonBlankAppend(Block0() + Block1() + Block2() + Block3() + Block4() + Block5() + Block6() + Block7(), Block8());
    NonBlankAppend(Block0() + Block1() + Block2() + Block3() + Block4() + Block5() + Block6() + Block7() + Block8(), Block9());
    NonBlankAppend(Block0() + Block1() + Block2() + Block3() + Block4() + Block5() + Block6() + Block7() + Block8() + Block9(), Block10());
    NonBlankAppend(Block0() + Block1() + Block2() + Block3() + Block4() + Block5() + Block6() + Block7() + Block8() + Block9() + Block10(), Block11());
    NonBlankAppend(Block0() + Block1() + Block2() + Block3() + Block4() + Block5() + Block6() + Block7() + Block8() + Block9() + Block10() + Block11(), Block12());
    NonBlankAppend(Block0() + Block1() + Block2() + Block3() + Block4() + Block5() + Block6() + Block7() + Block8() + Block9() + Block10() + Block11() + Block12(), Block13());
    NonBlankAppend(Block0() + Block1() + Block2() + Block3() + Block4() + Block5() + Block6() + Block7() + Block8() + Block9() + Block10() + Block11() + Block12() + Block13(), Block14());
    NonBlankAppend(Block0() + Block1() + Block2() + Block3() + Block4() + Block5() + Block6() + Block7() + Block8() + Block9() + Block10() + Block11() + Block12() + Block13() + Block14(), Block15());
    Block0() + Block1() + Block2() + Block3() + Block4() + Block5() + Block6() + Block7() + Block8() + Block9() + Block10() + Block11() + Block12() + Block13() + Block14() + Block15()
  }

  function Block0(): (b: seq<(string, string)>)
    ensures NonBlank(b)
  {
    [
      ("US", "USA"), ("United States", "USA"), ("USA", "USA"), ("United States of America", "USA"),
      ("UK", "GBR"), ("United Kingdom", "GBR"), ("GBR", "GBR"), ("England", "GBR")
    ]
  }

  function Block1(): (b: seq<(string, string)>)
    ensures NonBlank(b)
  {
    [
      ("China", "CHN"), ("CHN", "CHN"), ("People's Republic of China", "CHN"),
      ("India", "IND"), ("IND", "IND"),
      ("Brazil", "BRA"), ("BRA", "BRA"),
      ("France", "FRA"), ("FRA", "FRA")
    ]
  }

  function Block2(): (b: seq<(string, string)>)
    ensures NonBlank(b)
  {
    [
      ("Germany", "DEU"), ("DEU", "DEU"),
      ("Italy", "ITA"), ("ITA", "ITA"),
      ("Spain", "ESP"), ("ESP", "ESP"),
      ("Japan", "JPN"), ("JPN", "JPN"),
      ("Canada", "CAN"), ("CAN", "CAN")
    ]
  }

  function Block3(): (b: seq<(string, string)>)
    ensures NonBlank(b)
  {
    [
      ("South Korea", "KOR"), ("Korea, South", "KOR"), ("KOR", "KOR"),
      ("North Korea", "PRK"), ("Korea, North", "PRK"), ("PRK", "PRK"),
      ("Russia", "RUS"), ("RUS", "RUS"),
      ("Mexico", "MEX"), ("MEX", "MEX")
    ]
  }

  function Block4(): (b: seq<(string, string)>)
    ensures NonBlank(b)
  {
    [
      ("Australia", "AUS"), ("AUS", "AUS"),
      ("Argentina", "ARG"), ("ARG", "ARG"),
      ("South Africa", "ZAF"), ("ZAF", "ZAF"),
      ("Egypt", "EGY"), ("EGY", "EGY"),
      ("Nigeria", "NGA"), ("NGA", "NGA")
    ]
  }

  function Block5(): (b: seq<(string, string)>)
    ensures NonBlank(b)
  {
    [
      ("Indonesia", "IDN"), ("IDN", "IDN"),
      ("Afghanistan", "AFG"), ("AFG", "AFG"),
      ("Pakistan", "PAK"), ("PAK", "PAK"),
      ("Bangladesh", "BGD"), ("BGD", "BGD"),
      ("Thailand", "THA"), ("THA", "THA")
    ]
  }

  function Block6(): (b: seq<(string, string)>)
    ensures NonBlank(b)
  {
    [
      ("Vietnam", "VNM"), ("VNM", "VNM"),
      ("Philippines", "PHL"), ("PHL", "PHL"),
      ("Turkey", "TUR"), ("TUR", "TUR"),
      ("Iran", "IRN"), ("IRN", "IRN"),
      ("Iraq", "IRQ"), ("IRQ", "IRQ")
    ]
  }

  function Block7(): (b: seq<(string, string)>)
    ensures NonBlank(b)
  {
    [
      ("Saudi Arabia", "SAU"), ("SAU", "SAU"),
      ("United Arab Emirates", "ARE"), ("ARE", "ARE"),
      ("Israel", "ISR"), ("ISR", "ISR"),
      ("Belgium", "BEL"), ("BEL", "BEL"),
      ("Netherlands", "NLD"), ("NLD", "NLD")
    ]
  }

  function Block8(): (b: seq<(string, string)>)
    ensures NonBlank(b)
  {
    [
      ("Greece", "GRC"), ("GRC", "GRC"),
      ("Portugal", "PRT"), ("PRT", "PRT"),
      ("Poland", "POL"), ("POL", "POL"),
      ("Romania", "ROU"), ("ROU", "ROU"),
      ("Hungary", "HUN"), ("HUN", "HUN")
    ]
  }

  function Block9(): (b: seq<(string, string)>)
    ensures NonBlank(b)
  {
    [
      ("Austria", "AUT"), ("AUT", "AUT"),
      ("Switzerland", "CHE"), ("CHE", "CHE"),
      ("Sweden", "SWE"), ("SWE", "SWE"),
      ("Norway", "NOR"), ("NOR", "NOR"),
      ("Denmark", "DNK"), ("DNK", "DNK")
    ]
  }

  function Block10(): (b: seq<(string, string)>)
    ensures NonBlank(b)
  {
    [
      ("Finland", "FIN"), ("FIN", "FIN"),
      ("Ireland", "IRL"), ("IRL", "IRL"),
      ("New Zealand", "NZL"), ("NZL", "NZL"),
      ("Czechia", "CZE"), ("CZE", "CZE"),
      ("Chile", "CHL"), ("CHL", "CHL")
    ]
  }

  function Block11(): (b: seq<(string, string)>)
    ensures NonBlank(b)
  {
    [
      ("Peru", "PER"), ("PER", "PER"),
      ("Colombia", "COL"), ("COL", "COL"),
      ("Ecuador", "ECU"), ("ECU", "ECU"),
      ("Bolivia", "BOL"), ("BOL", "BOL"),
      ("Paraguay", "PRY"), ("PRY", "PRY")
    ]
  }

  function Block12(): (b: seq<(string, string)>)
    ensures NonBlank(b)
  {
    [
      ("Uruguay", "URY"), ("URY", "URY"),
      ("Venezuela", "VEN"), ("VEN", "VEN"),
      ("Guatemala", "GTM"), ("GTM", "GTM"),
      ("Honduras", "HND"), ("HND", "HND"),
      ("El Salvador", "SLV"), ("SLV", "SLV")
    ]
  }

  function Block13(): (b: seq<(string, string)>)
    ensures NonBlank(b)
  {
    [
      ("Nicaragua", "NIC"), ("NIC", "NIC"),
      ("Costa Rica", "CRI"), ("CRI", "CRI"),
      ("Panama", "PAN"), ("PAN", "PAN"),
      ("Cuba", "CUB"), ("CUB", "CUB"),
      ("Dominican Republic", "DOM"), ("DOM", "DOM")
    ]
  }

  function Block14(): (b: seq<(string, string)>)
    ensures NonBlank(b)
  {
    [
      ("Haiti", "HTI"), ("HTI", "HTI"),
      ("Jamaica", "JAM"), ("JAM", "JAM"),
      ("Trinidad and Tobago", "TTO"), ("TTO", "TTO"),
      ("Bahamas", "BHS"), ("BHS", "BHS"),
      ("Barbados", "BRB"), ("BRB", "BRB")
    ]
  }

  function Block15(): (b: seq<(string, string)>)
    ensures NonBlank(b)
  {
    [
      ("Belize", "BLZ"), ("BLZ", "BLZ"),
      ("Suriname", "SUR"), ("SUR", "SUR"),
      ("Guyana", "GUY"), ("GUY", "GUY")
    ]
  }

  /** `get_iso3_code` itself: `Resolve` over `ISO3_COUNTRY_MAPPING`. */
  function GetIso3Code(raw: Option<string>): (r: Option<string>)
    ensures raw.None? ==> r.None?
    ensures r.Some? ==> IsCodeIn(AliasTable(), r.value)
  {
    assert AliasTable()[0] == ("US", "USA");
    Resolve(AliasTable(), raw)
  }

  // ----- The head of the table -----

  /** The first two blocks, which hold the aliases of the labels used in the test suite. */
  function Head(): (h: seq<(string, string)>)
    ensures |h| == 17
  {
    Block0() + Block1()
  }

  lemma HeadIsPrefix()
    ensures Head() <= AliasTable()
  {
    var t := AliasTable();
    assert t == Head() + t[17..];
  }

  /** Alias `i` of a table that starts with `Head()` normalizes to `key`. */
  lemma HeadKey(t: seq<(string, string)>, i: int, alias: string, key: string)
    requires Head() <= t && 0 <= i < 17 && Head()[i].0 == alias
    requires alias != [] && !IsSpace(alias[0]) && !IsSpace(alias[|alias| - 1])
    requires Lower(alias) == key
    ensures ExactAt(t, key, i)
  {
    assert t[i] == Head()[i];
    NormalizeTrimmed(alias);
  }

  lemma UsKeysShort(t: seq<(string, string)>)
    requires Head() <= t
    ensures ExactAt(t, "us", 0) && ExactAt(t, "usa", 2)
  {
    HeadKey(t, 0, "US", "us");
    HeadKey(t, 2, "USA", "usa");
  }

  lemma UsKeyUnitedStates(t: seq<(string, string)>)
    requires Head() <= t
    ensures ExactAt(t, "united states", 1)
  {
    HeadKey(t, 1, "United States", "united states");
  }

  lemma UsKeyUnitedStatesOfAmerica(t: seq<(string, string)>)
    requires Head() <= t
    ensures ExactAt(t, "united states of america", 3)
  {
    LowerUnitedStatesOfAmerica();
    HeadKey(t, 3, "United States of America", "united states of america");
  }

  lemma LowerUnitedStatesOfAmerica()
    ensures Lower("United States of America") == "united states of america"
  {
  }

  lemma UkKeys(t: seq<(string, string)>)
    requires Head() <= t
    ensures ExactAt(t, "uk", 4) && ExactAt(t, "united kingdom", 5)
    ensures ExactAt(t, "gbr", 6) && ExactAt(t, "england", 7)
  {
    HeadKey(t, 4, "UK", "uk");
    HeadKey(t, 5, "United Kingdom", "united kingdom");
    HeadKey(t, 6, "GBR", "gbr");
    HeadKey(t, 7, "England", "england");
  }

  lemma ChinaKeys(t: seq<(string, string)>)
    requires Head() <= t
    ensures ExactAt(t, "china", 8) && ExactAt(t, "chn", 9) && ExactAt(t, "india", 11)
    ensures |Normalize(t[10].0)| == 26
  {
    HeadKey(t, 8, "China", "china");
    HeadKey(t, 9, "CHN", "chn");
    HeadKey(t, 11, "India", "india");
    assert t[10] == Head()[10];
    NormalizeTrimmed("People's Republic of China");
  }

  // ----- Consequences for get_iso3_code -----

  /** The third pass never fires: each US spelling already matches exactly. */
  lemma UsFallbackUnreachable(s: string)
    requires Normalize(s) in UsVariants
    ensures FirstExact(AliasTable(), Normalize(s), 0) < |AliasTable()|
  {
    var t := AliasTable();
    HeadIsPrefix();
    var n := Normalize(s);
    var i;
    if n == "us" || n == "usa" {
      UsKeysShort(t);
      i := if n == "us" then 0 else 2;
    } else if n == "united states" {
      UsKeyUnitedStates(t);
      i := 1;
    } else {
      UsKeyUnitedStatesOfAmerica(t);
      i := 3;
    }
    assert ExactAt(t, n, i);
  }

  /**
   * Over the real table a label is unresolved exactly when no alias is a
   * substring of it or contains it.
   */
  lemma GetIso3CodeNoneIff(s: string)
    ensures GetIso3Code(Some(s)).None? <==>
      forall j :: 0 <= j < |AliasTable()| ==> !PartialAt(AliasTable(), Normalize(s), j)
  {
    NotResolvedIff(AliasTable(), s);
    if Normalize(s) in UsVariants {
      UsFallbackUnreachable(s);
      var e := FirstExact(AliasTable(), Normalize(s), 0);
      ExactIsPartial(AliasTable(), Normalize(s), e);
    }
  }

  /** A blank label resolves to `"USA"`: `""` is a substring of the first alias, `"us"`. */
  lemma BlankResolvesToUsa(s: string)
    requires Normalize(s) == []
    ensures GetIso3Code(Some(s)) == Some("USA")
  {
    var t := AliasTable();
    forall j | 0 <= j < |t|
      ensures !ExactAt(t, [], j)
    {
      NormalizeNonBlank(t[j].0);
    }
    HeadIsPrefix();
    UsKeysShort(t);
    ContainsSelfAndEmpty("us");
    assert PartialAt(t, [], 0);
    assert t[0] == Head()[0];
    PartialMatchWins(t, s, 0);
  }

  // ----- Labels from the test suite -----

  /** `"US"`, `"USA"` and `"United States"` resolve to `"USA"` in any table starting with `Head()`. */
  lemma UsLabelsIn(t: seq<(string, string)>, s: string)
    requires Head() <= t && s in ["US", "USA", "United States"]
    ensures Resolve(t, Some(s)) == Some("USA")
  {
    UsKeysShort(t);
    UsKeyUnitedStates(t);
    NormalizeTrimmed(s);
    var i := if s == "US" then 0 else if s == "USA" then 2 else 1;
    assert t[i] == Head()[i];
    ExactMatchWins(t, s, i);
  }

  lemma UsLabels(s: string)
    requires s in ["US", "USA", "United States"]
    ensures GetIso3Code(Some(s)) == Some("USA")
  {
    HeadIsPrefix();
    UsLabelsIn(AliasTable(), s);
  }

  /** `"UK"` and `"United Kingdom"` resolve to `"GBR"` in any table starting with `Head()`. */
  lemma UkLabelsIn(t: seq<(string, string)>, s: string)
    requires Head() <= t && s in ["UK", "United Kingdom"]
    ensures Resolve(t, Some(s)) == Some("GBR")
  {
    UsKeysShort(t);
    UsKeyUnitedStates(t);
    UsKeyUnitedStatesOfAmerica(t);
    UkKeys(t);
    NormalizeTrimmed(s);
    var i := if s == "UK" then 4 else 5;
    assert t[i] == Head()[i];
    ExactMatchWins(t, s, i);
  }

  lemma UkLabels(s: string)
    requires s in ["UK", "United Kingdom"]
    ensures GetIso3Code(Some(s)) == Some("GBR")
  {
    HeadIsPrefix();
    UkLabelsIn(AliasTable(), s);
  }

  /** Matching ignores case: `"china"` resolves to `"CHN"` in any table starting with `Head()`. */
  lemma LowerCaseLabelIn(t: seq<(string, string)>, s: string)
    requires Head() <= t && s == "china"
    ensures Resolve(t, Some(s)) == Some("CHN")
  {
    UsKeysShort(t);
    UsKeyUnitedStates(t);
    UsKeyUnitedStatesOfAmerica(t);
    UkKeys(t);
    ChinaKeys(t);
    NormalizeTrimmed(s);
    assert t[8] == Head()[8];
    ExactMatchWins(t, s, 8);
  }

  /** Matching ignores case: `"INDIA"` resolves to `"IND"` in any table starting with `Head()`. */
  lemma UpperCaseLabelIn(t: seq<(string, string)>, s: string)
    requires Head() <= t && s == "INDIA"
    ensures Resolve(t, Some(s)) == Some("IND")
  {
    UsKeysShort(t);
    UsKeyUnitedStates(t);
    UsKeyUnitedStatesOfAmerica(t);
    UkKeys(t);
    ChinaKeys(t);
    NormalizeTrimmed(s);
    assert t[11] == Head()[11];
    ExactMatchWins(t, s, 11);
  }

  lemma CaseLabels(s: string)
    requires s in ["china", "INDIA"]
    ensures GetIso3Code(Some(s)) == Some(if s == "china" then "CHN" else "IND")
  {
    HeadIsPrefix();
    if s == "china" {
      LowerCaseLabelIn(AliasTable(), s);
    } else {
      UpperCaseLabelIn(AliasTable(), s);
    }
  }
}
