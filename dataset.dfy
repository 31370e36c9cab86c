/**
 * The derivations of `loadDataset` and `initDatasets`: the two shapes of a
 * dataset file, the county histogram behind the county filter's options,
 * positional ids, the polygon and information-window registry, the initial
 * viewport, and the choice of the first file to load.
 */
module Dataset {
  import opened Wrappers
  import opened Text
  import opened Districts
  import opened Filtering

  // ---------------------------------------------------------------------
  // Response normalisation
  // ---------------------------------------------------------------------

  /** The top level of a parsed dataset file. */
  datatype Json =
    | JsonArray(items: seq<Feature>)
    | JsonObject(datasetName: Option<string>, features: Option<seq<Feature>>)
    | JsonNull
    | JsonScalar

  /** What the fetch of a dataset file yields: a failed request or a parsed body. */
  datatype Fetch = FetchFailed | Received(body: Json)

  datatype Loaded = Loaded(title: string, features: seq<Feature>)

  const DefaultTitle: string := "Map"

  /**
   * The response handler's first two lines. A failed request, or a `null`
   * body (whose `.features` throws), ends in the `.catch`: `None`.
   */
  function Normalize(response: Fetch): (r: Option<Loaded>)
    ensures r.None? <==> response.FetchFailed? || response.body.JsonNull?
    ensures r.Some? ==> r.value.title != ""
    ensures r.Some? && response.body.JsonArray? ==> r.value == Loaded(DefaultTitle, response.body.items)
    ensures response.Received? && response.body.JsonObject? ==>
      var name, features := response.body.datasetName, response.body.features;
      && r.Some?
      && (name.Some? && name.value != "" ==> r.value.title == name.value)
      && (name.None? || name.value == "" ==> r.value.title == DefaultTitle)
      && (features.Some? ==> r.value.features == features.value)
      && (features.None? ==> r.value.features == [])
    ensures r.Some? && response.body.JsonScalar? ==> r.value == Loaded(DefaultTitle, [])
  {
    match response
    case FetchFailed => None
    case Received(body) =>
      match body
      case JsonArray(items) => Some(Loaded(DefaultTitle, items))
      case JsonObject(name, features) =>
        var title := if name.Some? && name.value != "" then name.value else DefaultTitle;
        Some(Loaded(title, if features.Some? then features.value else []))
      case JsonNull => None
      case JsonScalar => Some(Loaded(DefaultTitle, []))
  }

  // ---------------------------------------------------------------------
  // County histogram
  // ---------------------------------------------------------------------

  /** How many entries of `cs` equal `c`: the reference count. */
  function Occurrences(cs: seq<string>, c: string): nat
  {
    if cs == [] then 0
    else Occurrences(cs[..|cs| - 1], c) + (if cs[|cs| - 1] == c then 1 else 0)
  }

  /** `countyCounts`: the `reduce` that bumps `acc[area.county]` per record. */
  function CountyCounts(cs: seq<string>): map<string, nat>
  {
    if cs == [] then map[]
    else
      var acc := CountyCounts(cs[..|cs| - 1]);
      var c := cs[|cs| - 1];
      acc[c := (if c in acc then acc[c] else 0) + 1]
  }

  /**
   * The keys of `countyCounts`, in order of first insertion. `Object.keys`
   * would list integer-like keys such as "2" and "10" first, in numeric
   * order; the `.sort()` applied to the keys makes the order irrelevant
   * (`SortIgnoresOrder`).
   */
  function CountyKeys(cs: seq<string>): seq<string>
  {
    if cs == [] then []
    else
      var prev := cs[..|cs| - 1];
      if cs[|cs| - 1] in CountyCounts(prev) then CountyKeys(prev) else CountyKeys(prev) + [cs[|cs| - 1]]
  }

  ghost predicate Distinct(s: seq<string>)
  {
    forall i, j :: 0 <= i < j < |s| ==> s[i] != s[j]
  }

  /** Sum of `m[k]` over the keys `ks`; a key missing from `m` adds nothing. */
  function SumOver(ks: seq<string>, m: map<string, nat>): nat
  {
    if ks == [] then 0
    else
      var k := ks[|ks| - 1];
      SumOver(ks[..|ks| - 1], m) + (if k in m then m[k] else 0)
  }

  /** The histogram holds exactly the counties present, each with its number of records. */
  lemma {:induction false} CountyCountsExact(cs: seq<string>)
    ensures forall c :: c in CountyCounts(cs) <==> Occurrences(cs, c) > 0
    ensures forall c :: c in CountyCounts(cs) ==> CountyCounts(cs)[c] == Occurrences(cs, c)
  {
    if cs != [] {
      CountyCountsExact(cs[..|cs| - 1]);
    }
  }

  lemma {:induction false} SumFrame(ks: seq<string>, m: map<string, nat>, m': map<string, nat>)
    requires forall k :: k in ks ==> (k in m <==> k in m') && (k in m ==> m[k] == m'[k])
    ensures SumOver(ks, m) == SumOver(ks, m')
  {
    if ks != [] {
      SumFrame(ks[..|ks| - 1], m, m');
    }
  }

  lemma {:induction false} SumBump(ks: seq<string>, m: map<string, nat>, c: string)
    requires Distinct(ks) && c in ks && c in m
    ensures SumOver(ks, m[c := m[c] + 1]) == SumOver(ks, m) + 1
  {
    var prev := ks[..|ks| - 1];
    var last := ks[|ks| - 1];
    if last == c {
      assert c !in prev;
      SumFrame(prev, m, m[c := m[c] + 1]);
    } else {
      assert c in prev by {
        var i :| 0 <= i < |ks| && ks[i] == c;
        assert i < |ks| - 1 && prev[i] == c;
      }
      SumBump(prev, m, c);
    }
  }

  /** Every key of the histogram is listed, and only those. */
  lemma {:induction false} CountyKeysMembers(cs: seq<string>)
    ensures forall k :: k in CountyKeys(cs) <==> k in CountyCounts(cs)
  {
    if cs != [] {
      CountyKeysMembers(cs[..|cs| - 1]);
    }
  }

  /** No key is listed twice. */
  lemma {:induction false} CountyKeysDistinct(cs: seq<string>)
    ensures Distinct(CountyKeys(cs))
  {
    if cs != [] {
      var prev := cs[..|cs| - 1];
      CountyKeysDistinct(prev);
      CountyKeysMembers(prev);
    }
  }

  /**
   * `Object.keys` lists every county once, and the counts over those keys
   * add up to the number of records.
   */
  lemma CountyKeysSpec(cs: seq<string>)
    ensures forall k :: k in CountyKeys(cs) <==> k in CountyCounts(cs)
    ensures Distinct(CountyKeys(cs))
    ensures SumOver(CountyKeys(cs), CountyCounts(cs)) == |cs|
  {
    CountyKeysMembers(cs);
    CountyKeysDistinct(cs);
    CountyKeysSum(cs);
  }

  lemma {:induction false} CountyKeysSum(cs: seq<string>)
    ensures SumOver(CountyKeys(cs), CountyCounts(cs)) == |cs|
  {
    if cs != [] {
      var prev := cs[..|cs| - 1];
      var c := cs[|cs| - 1];
      var m := CountyCounts(prev);
      CountyKeysSum(prev);
      CountyKeysMembers(prev);
      CountyKeysDistinct(prev);
      SumStep(CountyKeys(prev), m, c, CountyKeys(cs), CountyCounts(cs));
    }
  }

  /**
   * One more record adds one to the sum, whether its county `c` is new
   * (appended to the keys with count 1) or not (its count bumped).
   */
  lemma SumStep(ks: seq<string>, m: map<string, nat>, c: string, ks': seq<string>, m': map<string, nat>)
    requires Distinct(ks) && forall k :: k in ks <==> k in m
    requires ks' == (if c in m then ks else ks + [c])
    requires m' == m[c := (if c in m then m[c] else 0) + 1]
    ensures SumOver(ks', m') == SumOver(ks, m) + 1
  {
    if c in m {
      assert c in ks && ks' == ks && m' == m[c := m[c] + 1];
      SumBump(ks, m, c);
    } else {
      assert c !in ks && ks' == ks + [c] && m' == m[c := 1];
      SumNewKey(ks, m, c);
    }
  }

  /** A county seen for the first time adds one to the sum over the keys. */
  lemma SumNewKey(ks: seq<string>, m: map<string, nat>, c: string)
    requires c !in ks && c !in m
    ensures SumOver(ks + [c], m[c := 1]) == SumOver(ks, m) + 1
  {
    var keys := ks + [c];
    assert keys[..|ks|] == ks;
    SumFrame(ks, m, m[c := 1]);
  }

  lemma {:induction false} SumAppend(a: seq<string>, b: seq<string>, m: map<string, nat>)
    ensures SumOver(a + b, m) == SumOver(a, m) + SumOver(b, m)
  {
    if b == [] {
      assert a + b == a;
    } else {
      assert (a + b)[..|a + b| - 1] == a + b[..|b| - 1];
      SumAppend(a, b[..|b| - 1], m);
    }
  }

  lemma MultisetRemove(a: seq<string>, b: seq<string>, j: nat)
    requires multiset(a) == multiset(b) && a != [] && j < |b| && b[j] == a[|a| - 1]
    ensures multiset(a[..|a| - 1]) == multiset(b[..j] + b[j + 1..])
  {
    var x := b[j];
    var prevA, left, right := a[..|a| - 1], b[..j], b[j + 1..];
    assert a == prevA + [x];
    assert b == left + [x] + right;
    calc {
      multiset(prevA);
      multiset(a) - multiset{x};
      multiset(b) - multiset{x};
      multiset(left) + multiset(right);
      multiset(left + right);
    }
  }

  lemma SumRemove(b: seq<string>, j: nat, m: map<string, nat>)
    requires j < |b| && forall k :: k in b ==> k in m
    ensures SumOver(b, m) == SumOver(b[..j] + b[j + 1..], m) + m[b[j]]
  {
    var left, right := b[..j], b[j + 1..];
    assert b == (left + [b[j]]) + right;
    SumAppend(left + [b[j]], right, m);
    SumAppend(left, [b[j]], m);
    SumAppend(left, right, m);
  }

  lemma {:induction false} SumPermutation(a: seq<string>, b: seq<string>, m: map<string, nat>)
    requires forall k :: k in a ==> k in m
    requires multiset(a) == multiset(b)
    ensures forall k :: k in b ==> k in m
    ensures SumOver(a, m) == SumOver(b, m)
    decreases |a|
  {
    forall k | k in b ensures k in m {
      assert k in multiset(b);
    }
    if a != [] {
      var x := a[|a| - 1];
      assert x in multiset(a);
      var j :| 0 <= j < |b| && b[j] == x;
      MultisetRemove(a, b, j);
      SumPermutation(a[..|a| - 1], b[..j] + b[j + 1..], m);
      SumRemove(b, j, m);
    }
  }

  lemma {:induction false} DistinctCount(s: seq<string>, x: string)
    requires Distinct(s)
    ensures multiset(s)[x] <= 1
  {
    if s != [] {
      var prev := s[..|s| - 1];
      assert s == prev + [s[|s| - 1]];
      DistinctCount(prev, x);
      if s[|s| - 1] == x {
        assert x !in prev;
      }
    }
  }

  lemma {:induction false} DistinctPermutation(a: seq<string>, b: seq<string>)
    requires Distinct(a) && multiset(a) == multiset(b)
    ensures Distinct(b)
  {
    forall i, j | 0 <= i < j < |b| ensures b[i] != b[j] {
      if b[i] == b[j] {
        var x := b[i];
        var u := b[..j];
        assert b == u + [x] + b[j + 1..];
        assert u[i] == x && x in multiset(u);
        assert multiset(b) == multiset(u) + multiset{x} + multiset(b[j + 1..]);
        DistinctCount(a, x);
      }
    }
  }

  // ---------------------------------------------------------------------
  // County filter options
  // ---------------------------------------------------------------------

  /** An `<option>` of the county filter: the synthetic "all" one or one per county. */
  datatype FilterOption = AllOption(total: Option<nat>) | CountyOption(county: string, count: nat)

  /** The text of the "all" option: the whole of Ningbo. */
  const AllText: string := "全宁波"

  /** The `value` of an option: what `render` compares `area.county` with. */
  function OptionValue(o: FilterOption): string
  {
    match o
    case AllOption(_) => AllCounties
    case CountyOption(county, _) => county
  }

  /** `全宁波`, `全宁波 (n)` or `county (n)`. */
  function OptionText(o: FilterOption): string
  {
    match o
    case AllOption(None) => AllText
    case AllOption(Some(n)) => AllText + " (" + Decimal(n) + ")"
    case CountyOption(county, n) => county + " (" + Decimal(n) + ")"
  }

  /** The "all" option alone, as `loadDataset` leaves the filter before fetching. */
  const ResetOptions: seq<FilterOption> := [AllOption(None)]

  /** The options after a load: "all" with the total, then the sorted counties with their counts. */
  function CountyOptions(cs: seq<string>): seq<FilterOption>
  {
    var counts := CountyCounts(cs);
    var keys := Sort(CountyKeys(cs));
    SortedKeysSpec(cs);
    [AllOption(Some(|cs|))] + seq(|keys|, i requires 0 <= i < |keys| => CountyOption(keys[i], counts[keys[i]]))
  }

  /** The values of the options, in order. */
  function OptionValues(opts: seq<FilterOption>): (vs: seq<string>)
    ensures |vs| == |opts|
    ensures forall i :: 0 <= i < |opts| ==> vs[i] == OptionValue(opts[i])
  {
    if opts == [] then [] else OptionValues(opts[..|opts| - 1]) + [OptionValue(opts[|opts| - 1])]
  }

  /** The texts of the options, in order. */
  function OptionTexts(opts: seq<FilterOption>): (ts: seq<string>)
    ensures |ts| == |opts|
    ensures forall i :: 0 <= i < |opts| ==> ts[i] == OptionText(opts[i])
  {
    if opts == [] then [] else OptionTexts(opts[..|opts| - 1]) + [OptionText(opts[|opts| - 1])]
  }

  function CountTotal(opts: seq<FilterOption>): nat
  {
    if opts == [] then 0
    else CountTotal(opts[..|opts| - 1])
         + match opts[|opts| - 1] { case AllOption(_) => 0 case CountyOption(_, n) => n }
  }

  lemma {:induction false} CountTotalIsSum(keys: seq<string>, m: map<string, nat>)
    requires forall k :: k in keys ==> k in m
    ensures CountTotal(seq(|keys|, i requires 0 <= i < |keys| => CountyOption(keys[i], m[keys[i]])))
            == SumOver(keys, m)
  {
    if keys != [] {
      var prev := keys[..|keys| - 1];
      CountTotalIsSum(prev, m);
      var opts := seq(|keys|, i requires 0 <= i < |keys| => CountyOption(keys[i], m[keys[i]]));
      assert opts[..|opts| - 1] == seq(|prev|, i requires 0 <= i < |prev| => CountyOption(prev[i], m[prev[i]]));
    }
  }

  /**
   * The county filter after a load: "all" first with the number of records,
   * then one option per distinct county in ascending order, each with the
   * number of records of that county; the county counts add up to the total.
   */
  lemma CountyOptionsSpec(cs: seq<string>)
    ensures var opts := CountyOptions(cs);
      && |opts| >= 1 && opts[0] == AllOption(Some(|cs|))
      && (forall i :: 1 <= i < |opts| ==> opts[i].CountyOption?)
      && (forall i, j :: 1 <= i < j < |opts| ==>
            StrLe(opts[i].county, opts[j].county) && opts[i].county != opts[j].county)
      && (forall c :: c in cs <==> exists i :: 1 <= i < |opts| && opts[i].county == c)
      && (forall i :: 1 <= i < |opts| ==> opts[i].count == Occurrences(cs, opts[i].county))
      && CountTotal(opts[1..]) == |cs|
  {
    SortedKeysSpec(cs);
    CountyCountsExact(cs);
    ListedOrder(|cs|, Sort(CountyKeys(cs)), CountyCounts(cs));
    ListedCounts(cs, Sort(CountyKeys(cs)), CountyCounts(cs));
  }

  /** The county options after "all" follow the sorted keys, one per key. */
  lemma ListedOrder(n: nat, keys: seq<string>, counts: map<string, nat>)
    requires Sorted(keys) && Distinct(keys)
    requires forall k :: k in keys ==> k in counts
    ensures var opts := [AllOption(Some(n))]
        + seq(|keys|, i requires 0 <= i < |keys| => CountyOption(keys[i], counts[keys[i]]));
      && |opts| >= 1 && opts[0] == AllOption(Some(n))
      && (forall i :: 1 <= i < |opts| ==> opts[i] == CountyOption(keys[i - 1], counts[keys[i - 1]]))
      && (forall i, j :: 1 <= i < j < |opts| ==>
            StrLe(opts[i].county, opts[j].county) && opts[i].county != opts[j].county)
  {
  }

  /** Each county of `cs` has an option, counted as often as it occurs, and the counts add up. */
  lemma ListedCounts(cs: seq<string>, keys: seq<string>, counts: map<string, nat>)
    requires forall k :: k in keys <==> k in cs
    requires forall k :: k in keys ==> k in counts && counts[k] == Occurrences(cs, k)
    requires SumOver(keys, counts) == |cs|
    ensures var opts := [AllOption(Some(|cs|))]
        + seq(|keys|, i requires 0 <= i < |keys| => CountyOption(keys[i], counts[keys[i]]));
      && (forall c :: c in cs <==> exists i :: 1 <= i < |opts| && opts[i].county == c)
      && (forall i :: 1 <= i < |opts| ==> opts[i].CountyOption? && opts[i].count == Occurrences(cs, opts[i].county))
      && CountTotal(opts[1..]) == |cs|
  {
    var tail := seq(|keys|, i requires 0 <= i < |keys| => CountyOption(keys[i], counts[keys[i]]));
    var opts := [AllOption(Some(|cs|))] + tail;
    assert opts[1..] == tail;
    assert forall i :: 1 <= i < |opts| ==> opts[i] == tail[i - 1];
    forall c ensures c in cs <==> exists i :: 1 <= i < |opts| && opts[i].county == c {
      if c in cs {
        var i :| 0 <= i < |keys| && keys[i] == c;
        assert opts[i + 1].county == c;
      }
    }
    CountTotalIsSum(keys, counts);
  }

  /**
   * The values a user can pick in the county filter after a load: "all",
   * then the distinct counties in ascending order.
   */
  lemma OptionValuesSpec(cs: seq<string>)
    ensures OptionValues(CountyOptions(cs)) == [AllCounties] + Sort(CountyKeys(cs))
  {
    SortedKeysSpec(cs);
    ListedValues(|cs|, Sort(CountyKeys(cs)), CountyCounts(cs));
  }

  /** The values of an "all" option followed by one option per key are "all" and the keys. */
  lemma ListedValues(n: nat, keys: seq<string>, counts: map<string, nat>)
    requires forall k :: k in keys ==> k in counts
    ensures OptionValues([AllOption(Some(n))]
      + seq(|keys|, i requires 0 <= i < |keys| => CountyOption(keys[i], counts[keys[i]])))
      == [AllCounties] + keys
  {
    var opts := [AllOption(Some(n))]
      + seq(|keys|, i requires 0 <= i < |keys| => CountyOption(keys[i], counts[keys[i]]));
    var vs := OptionValues(opts);
    forall i | 0 <= i < |vs| ensures vs[i] == ([AllCounties] + keys)[i] {
      if i > 0 {
        assert opts[i] == CountyOption(keys[i - 1], counts[keys[i - 1]]);
      }
    }
  }

  /**
   * The texts of the county filter after a load: `全宁波 (n)` with the number
   * of records, then `county (k)` with the number of records of that county.
   */
  lemma OptionTextsSpec(cs: seq<string>)
    ensures var opts := CountyOptions(cs);
      && OptionText(opts[0]) == AllText + " (" + Decimal(|cs|) + ")"
      && forall i :: 1 <= i < |opts| ==>
           OptionText(opts[i]) == opts[i].county + " (" + Decimal(Occurrences(cs, opts[i].county)) + ")"
  {
    CountyOptionsSpec(cs);
  }

  /**
   * Three records in counties A, A and B: the filter offers "all" with 3,
   * then A with 2 and B with 1.
   */
  lemma ThreeRecordsOptions()
    ensures CountyOptions(["A", "A", "B"]) == [AllOption(Some(3)), CountyOption("A", 2), CountyOption("B", 1)]
  {
    ThreeRecordsHistogram();
  }

  /** What those three options read. */
  lemma ThreeRecordsTexts()
    ensures OptionTexts(CountyOptions(["A", "A", "B"])) == [AllText + " (3)", "A (2)", "B (1)"]
  {
    ThreeRecordsOptions();
    TextsOfThree(AllOption(Some(3)), CountyOption("A", 2), CountyOption("B", 1));
    ThreeRecordsLabels();
  }

  lemma TextsOfThree(a: FilterOption, b: FilterOption, c: FilterOption)
    ensures OptionTexts([a, b, c]) == [OptionText(a), OptionText(b), OptionText(c)]
  {
  }

  lemma ThreeRecordsLabels()
    ensures OptionText(AllOption(Some(3))) == AllText + " (3)"
    ensures OptionText(CountyOption("A", 2)) == "A (2)"
    ensures OptionText(CountyOption("B", 1)) == "B (1)"
  {
    assert Decimal(3) == "3" && Decimal(2) == "2" && Decimal(1) == "1";
  }

  /** The same three records offer the values "all", "A" and "B". */
  lemma ThreeRecordsValues()
    ensures OptionValues(CountyOptions(["A", "A", "B"])) == [AllCounties, "A", "B"]
  {
    ThreeRecordsHistogram();
    OptionValuesSpec(["A", "A", "B"]);
  }

  lemma ThreeRecordsHistogram()
    ensures CountyCounts(["A", "A", "B"]) == map["A" := 2, "B" := 1]
    ensures CountyKeys(["A", "A", "B"]) == ["A", "B"]
    ensures Sort(CountyKeys(["A", "A", "B"])) == ["A", "B"]
  {
    ThreeRecordsKeys();
  }

  lemma ThreeRecordsKeys()
    ensures CountyCounts(["A", "A", "B"]) == map["A" := 2, "B" := 1]
    ensures CountyKeys(["A", "A", "B"]) == ["A", "B"]
  {
    HistogramStep([], "A");
    assert [] + ["A"] == ["A"];
    HistogramStep(["A"], "A");
    assert ["A"] + ["A"] == ["A", "A"];
    HistogramStep(["A", "A"], "B");
    assert ["A", "A"] + ["B"] == ["A", "A", "B"];
  }

  /** One more record in county `c`: the histogram and its keys after the `reduce` step. */
  lemma HistogramStep(prev: seq<string>, c: string)
    ensures var m := CountyCounts(prev);
      && CountyCounts(prev + [c]) == m[c := (if c in m then m[c] else 0) + 1]
      && CountyKeys(prev + [c]) == if c in m then CountyKeys(prev) else CountyKeys(prev) + [c]
  {
    var cs := prev + [c];
    assert cs[..|cs| - 1] == prev && cs[|cs| - 1] == c;
  }

  /** The sorted keys: ascending, each county once, and their counts add up to the records. */
  lemma SortedKeysSpec(cs: seq<string>)
    ensures var keys := Sort(CountyKeys(cs));
      && Sorted(keys) && Distinct(keys)
      && (forall k :: k in keys <==> k in cs)
      && (forall k :: k in keys ==> k in CountyCounts(cs))
      && SumOver(keys, CountyCounts(cs)) == |cs|
  {
    var counts := CountyCounts(cs);
    var ks := CountyKeys(cs);
    var keys := Sort(ks);
    CountyKeysSpec(cs);
    CountyCountsExact(cs);
    SortCorrect(ks);
    DistinctPermutation(ks, keys);
    assert forall k :: k in keys <==> k in multiset(ks);
    forall k ensures k in keys <==> k in cs {
      OccurrencesPositive(cs, k);
    }
    SumPermutation(ks, keys, counts);
  }

  lemma {:induction false} OccurrencesPositive(cs: seq<string>, c: string)
    ensures Occurrences(cs, c) > 0 <==> c in cs
  {
    if cs != [] {
      var prev := cs[..|cs| - 1];
      OccurrencesPositive(prev, c);
      assert cs == prev + [cs[|cs| - 1]];
    }
  }

  // ---------------------------------------------------------------------
  // Ids, registry and initial viewport
  // ---------------------------------------------------------------------

  /** `area.id = index` for every record. */
  function WithIds(fs: seq<Feature>): seq<District>
  {
    seq(|fs|, i requires 0 <= i < |fs| => District(i, fs[i].name, fs[i].county, fs[i].polylines))
  }

  /** The `polygons` map: one default-styled polygon per record whose first ring has points. */
  function PolygonRegistry(fs: seq<Feature>): map<nat, Polygon>
  {
    map i: nat | i < |fs| && HasRing(fs[i].polylines) :: Polygon(fs[i].polylines[0], DefaultStyle)
  }

  /** The `infoWindows` map, built beside the polygons. */
  function InfoRegistry(fs: seq<Feature>): map<nat, string>
  {
    map i: nat | i < |fs| && HasRing(fs[i].polylines) :: InfoContent(fs[i].name, fs[i].county)
  }

  /** `data.flatMap(area => area.polylines?.[0] ?? [])`: the points the first view fits. */
  function FirstRingPoints(fs: seq<Feature>): seq<Point>
  {
    if fs == [] then []
    else (if |fs[0].polylines| > 0 then fs[0].polylines[0] else []) + FirstRingPoints(fs[1..])
  }

  /**
   * The county of every loaded row. `CountiesOf` reads the same field from
   * the records as they arrive; this one reads it from the numbered rows
   * that `ByCounty` filters.
   */
  function DistrictCounties(ds: seq<District>): seq<string>
  {
    seq(|ds|, i requires 0 <= i < |ds| => ds[i].county)
  }

  lemma {:induction false} OccurrencesCons(x: string, cs: seq<string>, c: string)
    ensures Occurrences([x] + cs, c) == (if x == c then 1 else 0) + Occurrences(cs, c)
  {
    if cs != [] {
      var prev := cs[..|cs| - 1];
      assert ([x] + cs)[..|cs|] == [x] + prev;
      OccurrencesCons(x, prev, c);
    }
  }

  lemma {:induction false} ByCountyLength(ds: seq<District>, c: string)
    ensures |ByCounty(ds, c)| == Occurrences(DistrictCounties(ds), c)
  {
    if ds != [] {
      ByCountyLength(ds[1..], c);
      assert DistrictCounties(ds) == [ds[0].county] + DistrictCounties(ds[1..]);
      OccurrencesCons(ds[0].county, DistrictCounties(ds[1..]), c);
    }
  }

  /**
   * Ids are positions, so they are distinct, and for every county other
   * than "all" the count beside its option is the number of districts the
   * county filter keeps once that option is chosen with an empty search box.
   * A county named "all" is excluded: see `AllCountyCollision`.
   */
  lemma LoadedDistrictsSpec(fs: seq<Feature>, c: string)
    requires c != AllCounties
    ensures forall i, j :: 0 <= i < j < |fs| ==> WithIds(fs)[i].id != WithIds(fs)[j].id
    ensures |Filtered(WithIds(fs), c, "")| == Occurrences(CountiesOf(fs), c)
  {
    var ds := WithIds(fs);
    ByCountyLength(ds, c);
    assert DistrictCounties(ds) == CountiesOf(fs);
  }

  /**
   * A county literally named "all" gets an option whose value is "all",
   * which `render` reads as "no county filter": choosing it lists every
   * record, not the one its count promises.
   */
  lemma AllCountyCollision()
    ensures var fs := [Feature("a", AllCounties, []), Feature("b", "X", [])];
      && CountyOption(AllCounties, 1) in CountyOptions(CountiesOf(fs))
      && |Filtered(WithIds(fs), AllCounties, "")| == 2
      && Occurrences(CountiesOf(fs), AllCounties) == 1
  {
    var fs := [Feature("a", AllCounties, []), Feature("b", "X", [])];
    var cs := CountiesOf(fs);
    assert cs == [AllCounties, "X"];
    CountyOptionsSpec(cs);
    assert cs[..1] == [AllCounties] && cs[..1][..0] == [];
    assert Occurrences(cs[..1], AllCounties) == 1;
    assert Occurrences(cs, AllCounties) == 1;
    assert AllCounties in cs;
    var opts := CountyOptions(cs);
    var i :| 1 <= i < |opts| && opts[i].county == AllCounties;
    assert opts[i] == CountyOption(AllCounties, 1);
  }

  /**
   * The two registries have the same keys: the index of every record whose
   * first ring has points. Each polygon is that ring in the default style,
   * and each information window shows that record's name and county.
   */
  lemma RegistrySpec(fs: seq<Feature>)
    ensures PolygonRegistry(fs).Keys == InfoRegistry(fs).Keys
    ensures forall k: nat :: k in PolygonRegistry(fs) <==> k < |fs| && HasRing(fs[k].polylines)
    ensures forall k :: k in PolygonRegistry(fs) ==>
      PolygonRegistry(fs)[k] == Polygon(fs[k].polylines[0], DefaultStyle)
      && InfoRegistry(fs)[k] == InfoContent(fs[k].name, fs[k].county)
  {
  }

  // ---------------------------------------------------------------------
  // Dataset index (`datasets.json`) and the first load
  // ---------------------------------------------------------------------

  /** An entry of the dataset index. */
  datatype Entry = Entry(name: Option<string>, id: Option<string>, file: string)

  datatype IndexJson =
    | IndexArray(entries: seq<Entry>)
    | IndexObject(datasets: Option<seq<Entry>>)
    | IndexNull
    | IndexScalar

  datatype IndexFetch = IndexFailed | IndexReceived(body: IndexJson)

  /** The file loaded when there is no selector or no usable index. */
  const DefaultFile: string := "ningbo_cbd_boundaries_cgcs2000.json"

  /** An `<option>` of the dataset selector. */
  datatype SelectorOption = SelectorOption(value: string, text: string)

  /** The selector's options (`None`: left as the page had them) and the first file loaded. */
  datatype Startup = Startup(selector: Option<seq<SelectorOption>>, file: string)

  predicate Truthy(s: Option<string>)
  {
    s.Some? && s.value != ""
  }

  /** `d.name || d.id || d.file` */
  function EntryText(e: Entry): string
  {
    if Truthy(e.name) then e.name.value else if Truthy(e.id) then e.id.value else e.file
  }

  /** `Array.isArray(idx) ? idx : (idx.datasets || [])`; `None` when `.datasets` of null throws. */
  function DatasetList(idx: IndexJson): Option<seq<Entry>>
  {
    match idx
    case IndexArray(entries) => Some(entries)
    case IndexObject(datasets) => Some(if datasets.Some? then datasets.value else [])
    case IndexNull => None
    case IndexScalar => Some([])
  }

  function SelectorOptions(list: seq<Entry>): (opts: seq<SelectorOption>)
    ensures |opts| == |list|
    ensures forall i :: 0 <= i < |list| ==> opts[i].value == list[i].file
    ensures forall i :: 0 <= i < |list| ==> Truthy(list[i].name) ==> opts[i].text == list[i].name.value
    ensures forall i :: 0 <= i < |list| ==>
      !Truthy(list[i].name) && Truthy(list[i].id) ==> opts[i].text == list[i].id.value
    ensures forall i :: 0 <= i < |list| ==>
      !Truthy(list[i].name) && !Truthy(list[i].id) ==> opts[i].text == list[i].file
    ensures forall i :: 0 <= i < |list| ==>
      (opts[i].text == "" <==> !Truthy(list[i].name) && !Truthy(list[i].id) && list[i].file == "")
  {
    seq(|list|, i requires 0 <= i < |list| => SelectorOption(list[i].file, EntryText(list[i])))
  }

  /**
   * `initDatasets`: without a selector, or when the index cannot be read,
   * the default file is loaded and the selector is left alone; otherwise
   * the selector lists the index and the first entry is loaded, or the
   * default file when the index is empty.
   */
  function StartupPlan(hasSelector: bool, index: IndexFetch): (s: Startup)
    ensures !hasSelector || index.IndexFailed? ==> s == Startup(None, DefaultFile)
    ensures s.selector.None? ==> s.file == DefaultFile
    ensures s.selector.Some? ==>
      && hasSelector && index.IndexReceived? && DatasetList(index.body).Some?
      && |s.selector.value| == |DatasetList(index.body).value|
      && forall i :: 0 <= i < |s.selector.value| ==>
           s.selector.value[i].value == DatasetList(index.body).value[i].file
    ensures s.selector.Some? && |s.selector.value| > 0 ==> s.file == s.selector.value[0].value
    ensures s.selector.Some? && |s.selector.value| == 0 ==> s.file == DefaultFile
    ensures hasSelector && index.IndexReceived? && DatasetList(index.body).Some? ==>
      var list := DatasetList(index.body).value;
      && s.selector == Some(SelectorOptions(list))
      && s.file == (if |list| > 0 then list[0].file else DefaultFile)
  {
    if !hasSelector then Startup(None, DefaultFile)
    else match index
      case IndexFailed => Startup(None, DefaultFile)
      case IndexReceived(body) =>
        match DatasetList(body)
        case None => Startup(None, DefaultFile)
        case Some(list) =>
          Startup(Some(SelectorOptions(list)), if |list| > 0 then list[0].file else DefaultFile)
  }
}
