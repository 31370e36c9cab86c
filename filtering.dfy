/**
 * The filter chain of `render`: keep the districts of the chosen county
 * (skipped for "all"), then those whose lower-cased name contains the
 * lower-cased search text (skipped when the text is empty).
 */
module Filtering {
  import opened Text
  import opened Districts

  /** The value of the synthetic county option that disables the county filter. */
  const AllCounties: string := "all"

  /** `.filter(area => area.county === selectedCounty)` */
  function ByCounty(ds: seq<District>, county: string): seq<District>
  {
    if ds == [] then []
    else (if ds[0].county == county then [ds[0]] else []) + ByCounty(ds[1..], county)
  }

  /** `.filter(area => area.name.toLowerCase().includes(searchQuery))` */
  function ByName(ds: seq<District>, query: string): seq<District>
  {
    if ds == [] then []
    else (if Includes(Lower(ds[0].name), query) then [ds[0]] else []) + ByName(ds[1..], query)
  }

  /** `filteredDistricts` as `render` computes it from the two input controls. */
  function Filtered(all: seq<District>, countyValue: string, searchValue: string): seq<District>
  {
    var query := Lower(searchValue);
    var byCounty := if countyValue != AllCounties then ByCounty(all, countyValue) else all;
    if query != "" then ByName(byCounty, query) else byCounty
  }

  // ---------------------------------------------------------------------
  // Reference definition: one pass with the combined condition
  // ---------------------------------------------------------------------

  /** The condition a district must meet to be listed and drawn. */
  ghost predicate Passes(d: District, countyValue: string, searchValue: string)
  {
    && (countyValue == AllCounties || d.county == countyValue)
    && (searchValue == "" || exists i :: OccursAt(Lower(d.name), Lower(searchValue), i))
  }

  ghost function OnePass(ds: seq<District>, countyValue: string, searchValue: string): seq<District>
  {
    if ds == [] then []
    else (if Passes(ds[0], countyValue, searchValue) then [ds[0]] else [])
         + OnePass(ds[1..], countyValue, searchValue)
  }

  /** `sub` can be obtained from `s` by deleting elements: same order, nothing new. */
  ghost predicate IsSubsequence<T>(sub: seq<T>, s: seq<T>)
    decreases |s|
  {
    sub == [] || (s != [] && ((sub[0] == s[0] && IsSubsequence(sub[1..], s[1..])) || IsSubsequence(sub, s[1..])))
  }

  lemma {:induction false} ByNameAppend(a: seq<District>, b: seq<District>, query: string)
    ensures ByName(a + b, query) == ByName(a, query) + ByName(b, query)
  {
    if a == [] {
      assert a + b == b;
    } else {
      var head := if Includes(Lower(a[0].name), query) then [a[0]] else [];
      assert (a + b)[0] == a[0] && (a + b)[1..] == a[1..] + b;
      assert ByName(a + b, query) == head + ByName(a[1..] + b, query);
      ByNameAppend(a[1..], b, query);
      assert ByName(a, query) == head + ByName(a[1..], query);
    }
  }

  lemma {:induction false} FilteredIsOnePass(all: seq<District>, countyValue: string, searchValue: string)
    ensures Filtered(all, countyValue, searchValue) == OnePass(all, countyValue, searchValue)
  {
    if all != [] {
      FilteredIsOnePass(all[1..], countyValue, searchValue);
      IncludesIffOccurs(Lower(all[0].name), Lower(searchValue));
      var query := Lower(searchValue);
      var head := if countyValue != AllCounties then (if all[0].county == countyValue then [all[0]] else []) else [all[0]];
      var tail := if countyValue != AllCounties then ByCounty(all[1..], countyValue) else all[1..];
      assert (if countyValue != AllCounties then ByCounty(all, countyValue) else all) == head + tail;
      if query != "" {
        ByNameAppend(head, tail, query);
        if head != [] {
          assert head[1..] == [];
        }
      }
    }
  }

  lemma {:induction false} OnePassMembership(ds: seq<District>, countyValue: string, searchValue: string, d: District)
    ensures d in OnePass(ds, countyValue, searchValue) <==> d in ds && Passes(d, countyValue, searchValue)
  {
    if ds != [] {
      OnePassMembership(ds[1..], countyValue, searchValue, d);
      assert ds == [ds[0]] + ds[1..];
    }
  }

  lemma {:induction false} OnePassSubsequence(ds: seq<District>, countyValue: string, searchValue: string)
    ensures IsSubsequence(OnePass(ds, countyValue, searchValue), ds)
  {
    if ds != [] {
      OnePassSubsequence(ds[1..], countyValue, searchValue);
      var rest := OnePass(ds[1..], countyValue, searchValue);
      if Passes(ds[0], countyValue, searchValue) {
        assert ([ds[0]] + rest)[1..] == rest;
      } else {
        assert OnePass(ds, countyValue, searchValue) == rest;
        SubsequenceOfTail(rest, ds);
      }
    }
  }

  lemma {:induction false} SubsequenceOfTail<T>(sub: seq<T>, s: seq<T>)
    requires s != [] && IsSubsequence(sub, s[1..])
    ensures IsSubsequence(sub, s)
  {
  }

  /**
   * What `render` promises of `filteredDistricts`: it keeps the order of the
   * loaded districts, every kept district passes both filters, and every
   * district passing both filters is kept.
   */
  lemma FilteredSpec(all: seq<District>, countyValue: string, searchValue: string)
    ensures IsSubsequence(Filtered(all, countyValue, searchValue), all)
    ensures forall d :: d in Filtered(all, countyValue, searchValue) <==> d in all && Passes(d, countyValue, searchValue)
  {
    FilteredIsOnePass(all, countyValue, searchValue);
    OnePassSubsequence(all, countyValue, searchValue);
    forall d ensures d in Filtered(all, countyValue, searchValue) <==> d in all && Passes(d, countyValue, searchValue) {
      OnePassMembership(all, countyValue, searchValue, d);
    }
  }
}
