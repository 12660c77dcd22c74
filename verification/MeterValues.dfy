/** Total energy of a transaction from its meter values. Values are exact reals; timestamps are parsed. */
module MeterValues {
  import opened Options

  datatype Context = TransactionBegin | SamplePeriodic | TransactionEnd | OtherContext

  datatype Measurand = Register | Interval | Net | OtherMeasurand

  datatype Phase = L1 | L2 | L3 | L1_N | L2_N | L3_N | OtherPhase

  datatype UnitOfMeasure = UnitOfMeasure(unit: Option<string>, multiplier: Option<int>)

  datatype SampledValue = SampledValue(
    value: real,
    context: Option<Context>,
    measurand: Option<Measurand>,
    phase: Option<Phase>,
    unitOfMeasure: Option<UnitOfMeasure>)

  /** The schema demands at least one sampled value. */
  datatype MeterValue = MeterValue(timestamp: int, sampledValue: seq<SampledValue>)

  // Units.

  function Pow10(e: int): real
    decreases if e < 0 then -e else e
  {
    if e == 0 then 1.0 else if e > 0 then 10.0 * Pow10(e - 1) else Pow10(e + 1) / 10.0
  }

  function Upper(s: string): string
    decreases |s|
  {
    if s == "" then "" else [if 'a' <= s[0] <= 'z' then s[0] - 'a' + 'A' else s[0]] + Upper(s[1..])
  }

  /** A number, null, or an exception. */
  datatype Reading = Absent | Value(kwh: real) | Throws

  predicate IsKilo(unit: string) {
    Upper(unit) == "KWH" || Upper(unit) == "KVARH" || Upper(unit) == "KVAH"
  }

  predicate IsPlain(unit: string) {
    Upper(unit) == "WH" || Upper(unit) == "VARH" || Upper(unit) == "VAH"
  }

  function UnitOf(sv: SampledValue): Option<string> {
    if sv.unitOfMeasure.Some? then sv.unitOfMeasure.value.unit else None
  }

  function MultiplierOf(sv: SampledValue): int {
    if sv.unitOfMeasure.Some? then sv.unitOfMeasure.value.multiplier.OrElse(0) else 0
  }

  /** Without a unit the value is in Wh. */
  function NormalizeToKwh(sv: SampledValue): Reading {
    match UnitOf(sv)
    case None => Value(sv.value * Pow10(MultiplierOf(sv) - 3))
    case Some(unit) =>
      if IsKilo(unit) then Value(sv.value * Pow10(MultiplierOf(sv)))
      else if IsPlain(unit) then Value(sv.value * Pow10(MultiplierOf(sv) - 3))
      else Throws
  }

  // Readings of one meter value.

  predicate Measures(sv: SampledValue, measurand: Measurand) {
    sv.measurand == Some(measurand) || (sv.measurand.None? && measurand == Register)
  }

  function FindMeasurandValue(svs: seq<SampledValue>, measurand: Measurand, phased: bool): Reading
    decreases |svs|
  {
    if svs == [] then Absent
    else if Measures(svs[0], measurand) && phased == svs[0].phase.Some? then NormalizeToKwh(svs[0])
    else FindMeasurandValue(svs[1..], measurand, phased)
  }

  predicate OnPhase(sv: SampledValue, measurand: Measurand, neutral: bool) {
    && sv.measurand == Some(measurand)
    && if neutral then sv.phase == Some(L1_N) || sv.phase == Some(L2_N) || sv.phase == Some(L3_N)
       else sv.phase == Some(L1) || sv.phase == Some(L2) || sv.phase == Some(L3)
  }

  function OnPhases(svs: seq<SampledValue>, measurand: Measurand, neutral: bool): seq<SampledValue>
    decreases |svs|
  {
    if svs == [] then []
    else if OnPhase(svs[0], measurand, neutral) then [svs[0]] + OnPhases(svs[1..], measurand, neutral)
    else OnPhases(svs[1..], measurand, neutral)
  }

  function Plus(a: Reading, b: Reading): Reading {
    if a.Value? && b.Value? then Value(a.kwh + b.kwh) else Throws
  }

  function Sum(svs: seq<SampledValue>): Reading
    decreases |svs|
  {
    if svs == [] then Value(0.0) else Plus(Sum(svs[..|svs| - 1]), NormalizeToKwh(svs[|svs| - 1]))
  }

  /** Phases L1 to L3, or else phase to neutral. */
  function SumOfPhases(svs: seq<SampledValue>, measurand: Measurand): Reading {
    var phases, neutrals := OnPhases(svs, measurand, false), OnPhases(svs, measurand, true);
    if phases != [] then Sum(phases) else if neutrals != [] then Sum(neutrals) else Absent
  }

  method SumPhasedValues(svs: seq<SampledValue>, measurand: Measurand) returns (sum: Reading)
    ensures sum == SumOfPhases(svs, measurand)
  {
    var values := OnPhases(svs, measurand, false);
    if values == [] {
      values := OnPhases(svs, measurand, true);
      if values == [] {
        return Absent;
      }
    }
    var total := 0.0;
    for i := 0 to |values|
      invariant Sum(values[..i]) == Value(total)
    {
      SumOfPrefix(values, i);
      var normalized := NormalizeToKwh(values[i]);
      if normalized.Throws? {
        ThrowingSum(values, i + 1);
        return Throws;
      }
      total := total + normalized.kwh;
    }
    assert values[..|values|] == values;
    return Value(total);
  }

  lemma SumOfPrefix(svs: seq<SampledValue>, n: nat)
    requires n < |svs|
    ensures Sum(svs[..n + 1]) == Plus(Sum(svs[..n]), NormalizeToKwh(svs[n]))
  {
    assert svs[..n + 1][..n] == svs[..n];
  }

  lemma {:induction false} ThrowingSum(svs: seq<SampledValue>, n: nat)
    requires n <= |svs| && Sum(svs[..n]) == Throws
    ensures Sum(svs) == Throws
    decreases |svs|
  {
    if n == |svs| {
      assert svs[..n] == svs;
    } else {
      assert svs[..|svs| - 1][..n] == svs[..n];
      ThrowingSum(svs[..|svs| - 1], n);
    }
  }

  /** Registers and intervals fall back to the phases, net values do not. */
  function ReadingOf(mv: MeterValue, measurand: Measurand): Reading {
    var unphased := FindMeasurandValue(mv.sampledValue, measurand, false);
    if unphased.Absent? && measurand != Net then SumOfPhases(mv.sampledValue, measurand) else unphased
  }

  // From timestamps to readings.

  /** None when a reading throws; a later reading of the same timestamp replaces an earlier one. */
  function ValuesMap(mvs: seq<MeterValue>, measurand: Measurand): Option<map<int, real>>
    decreases |mvs|
  {
    if mvs == [] then Some(map[])
    else
      var last := mvs[|mvs| - 1];
      var before := ValuesMap(mvs[..|mvs| - 1], measurand);
      if before.None? then None
      else match ReadingOf(last, measurand)
        case Throws => None
        case Absent => before
        case Value(kwh) => Some(before.value[last.timestamp := kwh])
  }

  method GetValuesMap(mvs: seq<MeterValue>, measurand: Measurand) returns (values: Option<map<int, real>>)
    ensures values == ValuesMap(mvs, measurand)
  {
    var valuesMap: map<int, real> := map[];
    for i := 0 to |mvs|
      invariant ValuesMap(mvs[..i], measurand) == Some(valuesMap)
    {
      assert mvs[..i + 1][..i] == mvs[..i];
      var value := FindMeasurandValue(mvs[i].sampledValue, measurand, false);
      if value.Absent? && measurand != Net {
        value := SumPhasedValues(mvs[i].sampledValue, measurand);
      }
      if value.Throws? {
        ThrowingMap(mvs, measurand, i + 1);
        return None;
      }
      if value.Value? {
        valuesMap := valuesMap[mvs[i].timestamp := value.kwh];
      }
    }
    assert mvs[..|mvs|] == mvs;
    return Some(valuesMap);
  }

  lemma {:induction false} ThrowingMap(mvs: seq<MeterValue>, measurand: Measurand, n: nat)
    requires n <= |mvs| && ValuesMap(mvs[..n], measurand).None?
    ensures ValuesMap(mvs, measurand).None?
    decreases |mvs|
  {
    if n == |mvs| {
      assert mvs[..n] == mvs;
    } else {
      assert mvs[..|mvs| - 1][..n] == mvs[..n];
      ThrowingMap(mvs[..|mvs| - 1], measurand, n);
    }
  }

  // Totals.

  predicate ValidContext(mv: MeterValue)
    requires mv.sampledValue != []
  {
    mv.sampledValue[0].context.None? || mv.sampledValue[0].context.value != OtherContext
  }

  predicate Sampled(mvs: seq<MeterValue>) {
    forall mv :: mv in mvs ==> mv.sampledValue != []
  }

  predicate DistinctTimes(mvs: seq<MeterValue>) {
    forall i, j :: 0 <= i < j < |mvs| ==> mvs[i].timestamp != mvs[j].timestamp
  }

  function FilterValid(mvs: seq<MeterValue>): seq<MeterValue>
    requires Sampled(mvs)
    decreases |mvs|
  {
    if mvs == [] then []
    else if ValidContext(mvs[0]) then [mvs[0]] + FilterValid(mvs[1..])
    else FilterValid(mvs[1..])
  }

  lemma {:induction false} FilteredElements(mvs: seq<MeterValue>)
    requires Sampled(mvs)
    ensures forall mv :: mv in FilterValid(mvs) <==> mv in mvs && ValidContext(mv)
    decreases |mvs|
  {
    if mvs != [] {
      FilteredElements(mvs[1..]);
      assert mvs == [mvs[0]] + mvs[1..];
    }
  }

  lemma {:induction false} FilterKeepsDistinctTimes(mvs: seq<MeterValue>)
    requires Sampled(mvs) && DistinctTimes(mvs)
    ensures DistinctTimes(FilterValid(mvs))
    decreases |mvs|
  {
    if mvs != [] {
      var rest := FilterValid(mvs[1..]);
      FilteredElements(mvs[1..]);
      FilterKeepsDistinctTimes(mvs[1..]);
      forall j | 0 <= j < |rest| ensures rest[j].timestamp != mvs[0].timestamp {
        assert rest[j] in mvs[1..];
      }
    }
  }

  predicate IsGreatest(keys: set<int>, k: int) {
    k in keys && forall j :: j in keys ==> j <= k
  }

  predicate IsLeast(keys: set<int>, k: int) {
    k in keys && forall j :: j in keys ==> k <= j
  }

  lemma {:induction false} GreatestExists(keys: set<int>)
    requires keys != {}
    ensures exists k :: IsGreatest(keys, k)
    decreases |keys|
  {
    assert exists k :: k in keys by {
      if forall k :: k !in keys {
        assert false;
      }
    }
    var k :| k in keys;
    var rest := keys - {k};
    if rest == {} {
      assert keys == {k};
      assert IsGreatest(keys, k);
    } else {
      GreatestExists(rest);
      var j :| IsGreatest(rest, j);
      assert forall i :: i in keys ==> i == k || i in rest;
      assert IsGreatest(keys, if j < k then k else j);
    }
  }

  function Greatest(keys: set<int>): (k: int)
    requires keys != {}
    ensures IsGreatest(keys, k)
  {
    GreatestExists(keys);
    var k :| IsGreatest(keys, k);
    k
  }

  /** The readings in ascending order of their timestamps. */
  function SortedKwh(values: map<int, real>): (sorted: seq<real>)
    ensures |sorted| == |values|
    decreases |values|
  {
    if values == map[] then []
    else
      var k := Greatest(values.Keys);
      SortedKwh(values - {k}) + [values[k]]
  }

  function CalculateTotalKwh(sorted: seq<real>): real {
    if |sorted| < 2 then 0.0 else sorted[|sorted| - 1] - sorted[0]
  }

  function SumOf(sorted: seq<real>): real
    decreases |sorted|
  {
    if sorted == [] then 0.0 else SumOf(sorted[..|sorted| - 1]) + sorted[|sorted| - 1]
  }

  /** A number, or an exception for an unknown unit. */
  datatype Total = Kwh(value: real) | UnknownUnit

  /** Registers if there are any, else intervals, else the latest net value. */
  function TotalKwh(mvs: seq<MeterValue>): Total
    requires Sampled(mvs)
  {
    var valid := FilterValid(mvs);
    match ValuesMap(valid, Register)
    case None => UnknownUnit
    case Some(registers) =>
      if registers != map[] then Kwh(CalculateTotalKwh(SortedKwh(registers)))
      else match ValuesMap(valid, Interval)
        case None => UnknownUnit
        case Some(intervals) =>
          if intervals != map[] then Kwh(SumOf(SortedKwh(intervals)))
          else match ValuesMap(valid, Net)
            case None => UnknownUnit
            case Some(nets) => Kwh(if nets == map[] then 0.0 else nets[Greatest(nets.Keys)])
  }

  method GetTotalKwh(mvs: seq<MeterValue>) returns (total: Total)
    requires Sampled(mvs)
    ensures total == TotalKwh(mvs)
  {
    var filteredValues := FilterValid(mvs);
    if filteredValues == [] {
      return Kwh(0.0);
    }
    var registerMap := GetValuesMap(filteredValues, Register);
    if registerMap.None? {
      return UnknownUnit;
    }
    if |registerMap.value| > 0 {
      return Kwh(CalculateTotalKwh(SortedKwh(registerMap.value)));
    }
    var intervalMap := GetValuesMap(filteredValues, Interval);
    if intervalMap.None? {
      return UnknownUnit;
    }
    if |intervalMap.value| > 0 {
      var sum, sorted := 0.0, SortedKwh(intervalMap.value);
      for i := 0 to |sorted|
        invariant sum == SumOf(sorted[..i])
      {
        assert sorted[..i + 1][..i] == sorted[..i];
        sum := sum + sorted[i];
      }
      assert sorted[..|sorted|] == sorted;
      return Kwh(sum);
    }
    var netMap := GetValuesMap(filteredValues, Net);
    if netMap.None? {
      return UnknownUnit;
    }
    if |netMap.value| > 0 {
      return Kwh(netMap.value[Greatest(netMap.value.Keys)]);
    }
    return Kwh(0.0);
  }

  // With distinct timestamps the map does not depend on the order of the meter values.

  predicate AllReadable(mvs: seq<MeterValue>, measurand: Measurand) {
    forall mv :: mv in mvs ==> !ReadingOf(mv, measurand).Throws?
  }

  /** `values` holds exactly the readings of `mvs`. */
  ghost predicate Tabulates(values: map<int, real>, mvs: seq<MeterValue>, measurand: Measurand) {
    && (forall mv :: mv in mvs && ReadingOf(mv, measurand).Value? ==>
          mv.timestamp in values && values[mv.timestamp] == ReadingOf(mv, measurand).kwh)
    && (forall ts :: ts in values ==> exists mv :: mv in mvs && mv.timestamp == ts && ReadingOf(mv, measurand).Value?)
  }

  lemma AppendTabulates(values: map<int, real>, before: seq<MeterValue>, last: MeterValue, measurand: Measurand)
    requires Tabulates(values, before, measurand)
    requires forall mv :: mv in before ==> mv.timestamp != last.timestamp
    ensures ReadingOf(last, measurand).Absent? ==> Tabulates(values, before + [last], measurand)
    ensures ReadingOf(last, measurand).Value? ==>
      Tabulates(values[last.timestamp := ReadingOf(last, measurand).kwh], before + [last], measurand)
  {
    var all := before + [last];
    assert last in all;
    forall ts | ts in values
      ensures exists mv :: mv in all && mv.timestamp == ts && ReadingOf(mv, measurand).Value?
    {
      var mv :| mv in before && mv.timestamp == ts && ReadingOf(mv, measurand).Value?;
      assert mv in all;
    }
  }

  lemma {:induction false} MapNeedsReadable(mvs: seq<MeterValue>, measurand: Measurand)
    ensures ValuesMap(mvs, measurand).Some? <==> AllReadable(mvs, measurand)
    decreases |mvs|
  {
    if mvs != [] {
      MapNeedsReadable(mvs[..|mvs| - 1], measurand);
      assert mvs == mvs[..|mvs| - 1] + [mvs[|mvs| - 1]];
    }
  }

  lemma {:induction false} MapTabulates(mvs: seq<MeterValue>, measurand: Measurand)
    requires DistinctTimes(mvs) && ValuesMap(mvs, measurand).Some?
    ensures Tabulates(ValuesMap(mvs, measurand).value, mvs, measurand)
    decreases |mvs|
  {
    if mvs != [] {
      var n := |mvs| - 1;
      var before, last := mvs[..n], mvs[n];
      MapTabulates(before, measurand);
      EarlierTimesDiffer(mvs);
      AppendTabulates(ValuesMap(before, measurand).value, before, last, measurand);
      assert mvs == before + [last];
    }
  }

  lemma EarlierTimesDiffer(mvs: seq<MeterValue>)
    requires DistinctTimes(mvs) && mvs != []
    ensures forall mv :: mv in mvs[..|mvs| - 1] ==> mv.timestamp != mvs[|mvs| - 1].timestamp
  {
    forall mv | mv in mvs[..|mvs| - 1] ensures mv.timestamp != mvs[|mvs| - 1].timestamp {
      var i :| 0 <= i < |mvs| - 1 && mvs[i] == mv;
    }
  }

  ghost predicate SameElements(a: seq<MeterValue>, b: seq<MeterValue>) {
    forall mv :: mv in a <==> mv in b
  }

  lemma SameMap(a: seq<MeterValue>, b: seq<MeterValue>, measurand: Measurand)
    requires DistinctTimes(a) && DistinctTimes(b) && SameElements(a, b)
    ensures ValuesMap(a, measurand) == ValuesMap(b, measurand)
  {
    MapNeedsReadable(a, measurand);
    MapNeedsReadable(b, measurand);
    if ValuesMap(a, measurand).Some? {
      MapTabulates(a, measurand);
      MapTabulates(b, measurand);
      var u, v := ValuesMap(a, measurand).value, ValuesMap(b, measurand).value;
      forall ts | ts in u ensures ts in v && u[ts] == v[ts] {
        var mv :| mv in a && mv.timestamp == ts && ReadingOf(mv, measurand).Value?;
      }
      forall ts | ts in v ensures ts in u {
        var mv :| mv in b && mv.timestamp == ts && ReadingOf(mv, measurand).Value?;
      }
      assert u.Keys == v.Keys;
      assert u == v;
    }
  }

  /** Any reordering of meter values with distinct timestamps gives the same total, or throws alike. */
  lemma TotalIsOrderIndependent(a: seq<MeterValue>, b: seq<MeterValue>)
    requires Sampled(a) && DistinctTimes(a) && multiset(a) == multiset(b)
    ensures Sampled(b) && TotalKwh(a) == TotalKwh(b)
  {
    PermutationFacts(a, b);
    FilteredElements(a);
    FilteredElements(b);
    FilterKeepsDistinctTimes(a);
    FilterKeepsDistinctTimes(b);
    SameMap(FilterValid(a), FilterValid(b), Register);
    SameMap(FilterValid(a), FilterValid(b), Interval);
    SameMap(FilterValid(a), FilterValid(b), Net);
  }

  lemma PermutationFacts(a: seq<MeterValue>, b: seq<MeterValue>)
    requires DistinctTimes(a) && multiset(a) == multiset(b)
    ensures SameElements(a, b) && DistinctTimes(b)
  {
    forall mv ensures mv in a <==> mv in b {
      assert mv in a <==> mv in multiset(a);
      assert mv in b <==> mv in multiset(b);
    }
    forall i, j | 0 <= i < j < |b| ensures b[i].timestamp != b[j].timestamp {
      if b[i].timestamp == b[j].timestamp {
        DistinctTimesCountOnce(a, b[i]);
        assert b[i] in a && b[j] in a;
        assert b[i] == b[j];
        TwoPositionsCountTwice(b, i, j);
      }
    }
  }

  lemma {:induction false} DistinctTimesCountOnce(a: seq<MeterValue>, mv: MeterValue)
    requires DistinctTimes(a)
    ensures multiset(a)[mv] <= 1
    decreases |a|
  {
    if a != [] {
      assert a == [a[0]] + a[1..];
      DistinctTimesCountOnce(a[1..], mv);
      if mv == a[0] {
        assert forall i :: 0 <= i < |a[1..]| ==> a[1..][i].timestamp != mv.timestamp;
        assert mv !in a[1..];
      }
    }
  }

  lemma TwoPositionsCountTwice(b: seq<MeterValue>, i: nat, j: nat)
    requires i < j < |b| && b[i] == b[j]
    ensures multiset(b)[b[i]] >= 2
  {
    assert b == b[..i] + [b[i]] + b[i + 1..j] + [b[j]] + b[j + 1..];
  }

  // The sort.

  function Earlier(times: set<int>, ts: int): set<int> {
    set t | t in times && t < ts
  }

  /** Every reading stands after as many others as have earlier timestamps: the readings are in the order of time. */
  lemma {:induction false} SortedByTime(values: map<int, real>, ts: int)
    requires ts in values
    ensures |Earlier(values.Keys, ts)| < |values|
    ensures SortedKwh(values)[|Earlier(values.Keys, ts)|] == values[ts]
    decreases |values|
  {
    var k := Greatest(values.Keys);
    var rest := values - {k};
    assert values.Keys == rest.Keys + {k};
    if ts == k {
      assert Earlier(values.Keys, ts) == rest.Keys;
      assert |rest.Keys| == |rest|;
    } else {
      assert Earlier(values.Keys, ts) == Earlier(rest.Keys, ts);
      SortedByTime(rest, ts);
    }
  }

  // Registers: the last reading minus the first.

  lemma {:induction false} SortedEnds(values: map<int, real>, lo: int, hi: int)
    requires IsLeast(values.Keys, lo) && IsGreatest(values.Keys, hi)
    ensures var sorted := SortedKwh(values);
            sorted != [] && sorted[0] == values[lo] && sorted[|sorted| - 1] == values[hi]
    decreases |values|
  {
    var k := Greatest(values.Keys);
    assert k == hi;
    var rest := values - {k};
    assert values.Keys == rest.Keys + {k};
    if rest.Keys != {} {
      var j := Greatest(rest.Keys);
      assert j in values.Keys && j != k && lo <= j < k;
      SortedEnds(rest, lo, j);
    }
  }

  /** A register reading that counts. */
  predicate Registers(mvs: seq<MeterValue>, mv: MeterValue)
    requires Sampled(mvs)
  {
    mv in mvs && ValidContext(mv) && ReadingOf(mv, Register).Value?
  }

  /** `first` and `last` are the earliest and the latest register reading, and no register is unreadable. */
  predicate Spans(mvs: seq<MeterValue>, first: MeterValue, last: MeterValue)
    requires Sampled(mvs)
  {
    && Registers(mvs, first) && Registers(mvs, last)
    && (forall mv :: mv in mvs && Registers(mvs, mv) ==> first.timestamp <= mv.timestamp <= last.timestamp)
    && (forall mv :: mv in mvs && ValidContext(mv) ==> !ReadingOf(mv, Register).Throws?)
  }

  /** The register readings that count, as a table. */
  lemma RegisterTable(mvs: seq<MeterValue>, first: MeterValue, last: MeterValue)
    requires Sampled(mvs) && DistinctTimes(mvs) && Spans(mvs, first, last)
    ensures var table := ValuesMap(FilterValid(mvs), Register);
            && table.Some?
            && IsLeast(table.value.Keys, first.timestamp) && IsGreatest(table.value.Keys, last.timestamp)
            && table.value[first.timestamp] == ReadingOf(first, Register).kwh
            && table.value[last.timestamp] == ReadingOf(last, Register).kwh
  {
    var valid := FilterValid(mvs);
    FilteredElements(mvs);
    FilterKeepsDistinctTimes(mvs);
    MapNeedsReadable(valid, Register);
    MapTabulates(valid, Register);
    var table := ValuesMap(valid, Register).value;
    forall ts | ts in table ensures first.timestamp <= ts <= last.timestamp {
      var mv :| mv in valid && mv.timestamp == ts && ReadingOf(mv, Register).Value?;
      assert Registers(mvs, mv);
    }
  }

  lemma TableTotal(table: map<int, real>, lo: int, hi: int)
    requires IsLeast(table.Keys, lo) && IsGreatest(table.Keys, hi)
    ensures CalculateTotalKwh(SortedKwh(table)) == table[hi] - table[lo]
  {
    SortedEnds(table, lo, hi);
    if |table| < 2 {
      assert SortedKwh(table)[0] == SortedKwh(table)[|SortedKwh(table)| - 1];
    }
  }

  lemma TotalOfTable(mvs: seq<MeterValue>, table: map<int, real>, lo: int, hi: int)
    requires Sampled(mvs) && ValuesMap(FilterValid(mvs), Register) == Some(table)
    requires IsLeast(table.Keys, lo) && IsGreatest(table.Keys, hi)
    ensures TotalKwh(mvs) == Kwh(table[hi] - table[lo])
  {
    TableTotal(table, lo, hi);
    assert lo in table;
  }

  /** When there are register readings, the total is the latest minus the earliest. */
  lemma RegisterTotal(mvs: seq<MeterValue>, first: MeterValue, last: MeterValue)
    requires Sampled(mvs) && DistinctTimes(mvs) && Spans(mvs, first, last)
    ensures TotalKwh(mvs) == Kwh(ReadingOf(last, Register).kwh - ReadingOf(first, Register).kwh)
  {
    RegisterTable(mvs, first, last);
    TotalOfTable(mvs, ValuesMap(FilterValid(mvs), Register).value, first.timestamp, last.timestamp);
  }

  lemma PartSpans(mvs: seq<MeterValue>, first: MeterValue, last: MeterValue, part: seq<MeterValue>, lo: MeterValue,
                  hi: MeterValue)
    requires Sampled(mvs) && Spans(mvs, first, last)
    requires forall mv :: mv in part ==> mv in mvs
    requires forall mv :: mv in part && Registers(mvs, mv) ==> lo.timestamp <= mv.timestamp <= hi.timestamp
    requires lo in part && hi in part && Registers(mvs, lo) && Registers(mvs, hi)
    ensures Sampled(part) && Spans(part, lo, hi)
  {
  }

  /** The part up to a register reading, and the part from it on. */
  lemma EarlyTotal(mvs: seq<MeterValue>, first: MeterValue, cut: MeterValue, last: MeterValue, early: seq<MeterValue>)
    requires Sampled(mvs) && Spans(mvs, first, last) && Registers(mvs, cut)
    requires DistinctTimes(early) && first in early && cut in early
    requires forall mv :: mv in early ==> mv in mvs && mv.timestamp <= cut.timestamp
    ensures Sampled(early) && TotalKwh(early) == Kwh(ReadingOf(cut, Register).kwh - ReadingOf(first, Register).kwh)
  {
    PartSpans(mvs, first, last, early, first, cut);
    RegisterTotal(early, first, cut);
  }

  lemma LateTotal(mvs: seq<MeterValue>, first: MeterValue, cut: MeterValue, last: MeterValue, late: seq<MeterValue>)
    requires Sampled(mvs) && Spans(mvs, first, last) && Registers(mvs, cut)
    requires DistinctTimes(late) && cut in late && last in late
    requires forall mv :: mv in late ==> mv in mvs && cut.timestamp <= mv.timestamp
    ensures Sampled(late) && TotalKwh(late) == Kwh(ReadingOf(last, Register).kwh - ReadingOf(cut, Register).kwh)
  {
    PartSpans(mvs, first, last, late, cut, last);
    RegisterTotal(late, cut, last);
  }

  /** Cutting a series at one of its register readings, which belongs to both parts, gives totals that add up. */
  lemma CutTotalsAddUp(mvs: seq<MeterValue>, first: MeterValue, cut: MeterValue, last: MeterValue,
                       early: seq<MeterValue>, late: seq<MeterValue>)
    requires Sampled(mvs) && DistinctTimes(mvs) && Spans(mvs, first, last) && Registers(mvs, cut)
    requires DistinctTimes(early) && first in early && cut in early
    requires forall mv :: mv in early ==> mv in mvs && mv.timestamp <= cut.timestamp
    requires DistinctTimes(late) && cut in late && last in late
    requires forall mv :: mv in late ==> mv in mvs && cut.timestamp <= mv.timestamp
    ensures Sampled(early) && Sampled(late)
    ensures TotalKwh(early).Kwh? && TotalKwh(late).Kwh?
    ensures TotalKwh(mvs) == Kwh(TotalKwh(early).value + TotalKwh(late).value)
  {
    RegisterTotal(mvs, first, last);
    EarlyTotal(mvs, first, cut, last, early);
    LateTotal(mvs, first, cut, last, late);
  }

  /** A readable meter value strictly between the first and the last register reading changes nothing. */
  lemma IntermediateReadingIsIrrelevant(mvs: seq<MeterValue>, first: MeterValue, last: MeterValue, extra: MeterValue,
                                        more: seq<MeterValue>)
    requires Sampled(mvs) && DistinctTimes(mvs) && Spans(mvs, first, last)
    requires extra.sampledValue != [] && !ReadingOf(extra, Register).Throws?
    requires first.timestamp < extra.timestamp < last.timestamp
    requires DistinctTimes(more) && forall mv :: mv in more <==> mv in mvs || mv == extra
    ensures Sampled(more) && TotalKwh(more) == TotalKwh(mvs)
  {
    assert Registers(more, first) && Registers(more, last);
    forall mv | mv in more && Registers(more, mv) ensures first.timestamp <= mv.timestamp <= last.timestamp {
      assert mv == extra || Registers(mvs, mv);
    }
    RegisterTotal(mvs, first, last);
    RegisterTotal(more, first, last);
  }

  /** Registers that never run backwards give a total that is not negative. */
  lemma MonotoneRegistersGiveNonNegativeTotal(mvs: seq<MeterValue>, first: MeterValue, last: MeterValue)
    requires Sampled(mvs) && DistinctTimes(mvs) && Spans(mvs, first, last)
    requires forall u, v :: Registers(mvs, u) && Registers(mvs, v) && u.timestamp <= v.timestamp ==>
               ReadingOf(u, Register).kwh <= ReadingOf(v, Register).kwh
    ensures TotalKwh(mvs).Kwh? && TotalKwh(mvs).value >= 0.0
  {
    RegisterTotal(mvs, first, last);
  }

  // Intervals: the sum of the readings. Net values: the latest reading.

  /** A meter value counts unless it says that it was taken on another occasion. */
  predicate Counts(mv: MeterValue) {
    mv.sampledValue != [] && mv.sampledValue[0].context != Some(OtherContext)
  }

  predicate NoReading(mvs: seq<MeterValue>, measurand: Measurand) {
    forall mv :: mv in mvs && Counts(mv) ==> ReadingOf(mv, measurand).Absent?
  }

  predicate Readable(mvs: seq<MeterValue>, measurand: Measurand) {
    forall mv :: mv in mvs && Counts(mv) ==> !ReadingOf(mv, measurand).Throws?
  }

  predicate HasReading(mvs: seq<MeterValue>, mv: MeterValue, measurand: Measurand) {
    mv in mvs && Counts(mv) && ReadingOf(mv, measurand).Value?
  }

  /** The readings of a measurand added up in the order of the list. */
  function ReadingSum(mvs: seq<MeterValue>, measurand: Measurand): real
    decreases |mvs|
  {
    if mvs == [] then 0.0
    else
      var before, last := mvs[..|mvs| - 1], mvs[|mvs| - 1];
      ReadingSum(before, measurand) +
        (if Counts(last) && ReadingOf(last, measurand).Value? then ReadingOf(last, measurand).kwh else 0.0)
  }

  lemma {:induction false} ReadingSumAdds(a: seq<MeterValue>, b: seq<MeterValue>, measurand: Measurand)
    ensures ReadingSum(a + b, measurand) == ReadingSum(a, measurand) + ReadingSum(b, measurand)
    decreases |b|
  {
    if b == [] {
      assert a + b == a;
    } else {
      assert (a + b)[..|a + b| - 1] == a + b[..|b| - 1];
      ReadingSumAdds(a, b[..|b| - 1], measurand);
    }
  }

  lemma SumWithGreatest(values: map<int, real>)
    requires values != map[]
    ensures var k := Greatest(values.Keys);
            SumOf(SortedKwh(values)) == SumOf(SortedKwh(values - {k})) + values[k]
  {
    var k := Greatest(values.Keys);
    var before := SortedKwh(values - {k});
    assert (before + [values[k]])[..|before|] == before;
  }

  lemma GreatestOfMore(keys: set<int>, ts: int)
    requires ts !in keys
    ensures var k := Greatest(keys + {ts});
            k == ts || (keys != {} && k == Greatest(keys))
  {
  }

  lemma RestOfMore(values: map<int, real>, ts: int, x: real, k: int)
    requires ts !in values && (k == ts || k in values)
    ensures values[ts := x] - {k} == if k == ts then values else (values - {k})[ts := x]
  {
  }

  /** A reading more, at whatever time, adds its value. */
  lemma {:induction false} OneMoreInterval(values: map<int, real>, ts: int, x: real)
    requires ts !in values
    ensures SumOf(SortedKwh(values[ts := x])) == SumOf(SortedKwh(values)) + x
    decreases |values|
  {
    var k := Greatest(values.Keys + {ts});
    assert values[ts := x].Keys == values.Keys + {ts};
    GreatestOfMore(values.Keys, ts);
    RestOfMore(values, ts, x, k);
    SumWithGreatest(values[ts := x]);
    if k != ts {
      SumWithGreatest(values);
      OneMoreInterval(values - {k}, ts, x);
    }
  }

  lemma OneMoreReading(mvs: seq<MeterValue>, measurand: Measurand)
    requires DistinctTimes(mvs) && mvs != [] && ValuesMap(mvs, measurand).Some?
    ensures var before, reading := ValuesMap(mvs[..|mvs| - 1], measurand), ReadingOf(mvs[|mvs| - 1], measurand);
            && before.Some?
            && SumOf(SortedKwh(ValuesMap(mvs, measurand).value)) ==
               SumOf(SortedKwh(before.value)) + (if reading.Value? then reading.kwh else 0.0)
  {
    var before, last := ValuesMap(mvs[..|mvs| - 1], measurand), mvs[|mvs| - 1];
    NotYetRead(mvs, measurand);
    if ReadingOf(last, measurand).Value? {
      OneMoreInterval(before.value, last.timestamp, ReadingOf(last, measurand).kwh);
    }
  }

  lemma {:induction false} MapSum(mvs: seq<MeterValue>, measurand: Measurand)
    requires DistinctTimes(mvs) && ValuesMap(mvs, measurand).Some? && forall mv :: mv in mvs ==> Counts(mv)
    ensures SumOf(SortedKwh(ValuesMap(mvs, measurand).value)) == ReadingSum(mvs, measurand)
    decreases |mvs|
  {
    if mvs == [] {
      assert SortedKwh(map[]) == [];
    } else {
      OneMoreReading(mvs, measurand);
      MapSum(mvs[..|mvs| - 1], measurand);
      assert mvs[|mvs| - 1] in mvs;
    }
  }

  lemma NotYetRead(mvs: seq<MeterValue>, measurand: Measurand)
    requires DistinctTimes(mvs) && mvs != [] && ValuesMap(mvs, measurand).Some?
    ensures mvs[|mvs| - 1].timestamp !in ValuesMap(mvs[..|mvs| - 1], measurand).value
  {
    EarlierTimesDiffer(mvs);
    MapTabulates(mvs[..|mvs| - 1], measurand);
  }

  lemma {:induction false} FilterKeepsSum(mvs: seq<MeterValue>, measurand: Measurand)
    requires Sampled(mvs)
    ensures ReadingSum(FilterValid(mvs), measurand) == ReadingSum(mvs, measurand)
    decreases |mvs|
  {
    if mvs != [] {
      var first, valid := mvs[0], FilterValid(mvs[1..]);
      assert mvs == [first] + mvs[1..];
      assert first in mvs && [first][..0] == [];
      FilterKeepsSum(mvs[1..], measurand);
      ReadingSumAdds([first], mvs[1..], measurand);
      ReadingSumAdds([first], valid, measurand);
    }
  }

  /** The map is empty exactly if nothing is read. */
  lemma {:induction false} EmptyMapIff(mvs: seq<MeterValue>, measurand: Measurand)
    requires ValuesMap(mvs, measurand).Some?
    ensures ValuesMap(mvs, measurand).value == map[] <==>
            forall mv :: mv in mvs ==> ReadingOf(mv, measurand).Absent?
    decreases |mvs|
  {
    if mvs != [] {
      var before, last := mvs[..|mvs| - 1], mvs[|mvs| - 1];
      assert mvs == before + [last];
      EmptyMapIff(before, measurand);
      if ReadingOf(last, measurand).Value? {
        assert last.timestamp in ValuesMap(mvs, measurand).value;
      }
    }
  }

  /** What the map of a measurand tells, in terms of the meter values. */
  lemma MapFacts(mvs: seq<MeterValue>, measurand: Measurand)
    requires Sampled(mvs)
    ensures ValuesMap(FilterValid(mvs), measurand).Some? <==> Readable(mvs, measurand)
    ensures ValuesMap(FilterValid(mvs), measurand) == Some(map[]) <==> NoReading(mvs, measurand)
  {
    var valid := FilterValid(mvs);
    FilteredElements(mvs);
    assert forall mv :: mv in mvs ==> (Counts(mv) <==> ValidContext(mv));
    MapNeedsReadable(valid, measurand);
    if ValuesMap(valid, measurand).Some? {
      EmptyMapIff(valid, measurand);
    }
  }

  /** The total throws exactly if a unit is unknown among the values that are consulted: net values are only without
      interval values, and these only without registers. */
  lemma UnknownUnitIff(mvs: seq<MeterValue>)
    requires Sampled(mvs)
    ensures TotalKwh(mvs) == UnknownUnit <==>
            || !Readable(mvs, Register)
            || (NoReading(mvs, Register) && !Readable(mvs, Interval))
            || (NoReading(mvs, Register) && NoReading(mvs, Interval) && !Readable(mvs, Net))
  {
    MapFacts(mvs, Register);
    MapFacts(mvs, Interval);
    MapFacts(mvs, Net);
  }

  /** Without registers the total is the sum of the interval readings, if there are any. */
  lemma IntervalTotal(mvs: seq<MeterValue>, some: MeterValue)
    requires Sampled(mvs) && DistinctTimes(mvs) && NoReading(mvs, Register) && Readable(mvs, Interval)
    requires HasReading(mvs, some, Interval)
    ensures TotalKwh(mvs) == Kwh(ReadingSum(mvs, Interval))
  {
    MapFacts(mvs, Register);
    MapFacts(mvs, Interval);
    FilteredElements(mvs);
    FilterKeepsDistinctTimes(mvs);
    MapSum(FilterValid(mvs), Interval);
    FilterKeepsSum(mvs, Interval);
  }

  /** A single interval is its own total. */
  lemma SingleIntervalTotal(mv: MeterValue)
    requires Counts(mv) && ReadingOf(mv, Register).Absent? && ReadingOf(mv, Interval).Value?
    ensures Sampled([mv]) && TotalKwh([mv]) == Kwh(ReadingOf(mv, Interval).kwh)
  {
    assert mv in [mv];
    IntervalTotal([mv], mv);
    assert [mv][..0] == [];
  }

  lemma PartsOfSeries(mvs: seq<MeterValue>, a: seq<MeterValue>, b: seq<MeterValue>)
    requires DistinctTimes(a + b) && SameElements(mvs, a + b)
    ensures DistinctTimes(a) && DistinctTimes(b) && forall mv :: mv in a || mv in b ==> mv in mvs
  {
    assert forall mv :: mv in a || mv in b ==> mv in a + b;
    assert forall i :: 0 <= i < |a| ==> (a + b)[i] == a[i];
    assert forall i :: 0 <= i < |b| ==> (a + b)[|a| + i] == b[i];
  }

  /** However a series without registers is divided into two parts with intervals, their totals add up. */
  lemma DividedIntervalTotalsAddUp(mvs: seq<MeterValue>, a: seq<MeterValue>, b: seq<MeterValue>, u: MeterValue,
                                   v: MeterValue)
    requires Sampled(mvs) && DistinctTimes(mvs) && multiset(mvs) == multiset(a + b)
    requires NoReading(mvs, Register) && Readable(mvs, Interval)
    requires HasReading(a, u, Interval) && HasReading(b, v, Interval)
    ensures Sampled(a) && Sampled(b) && TotalKwh(a).Kwh? && TotalKwh(b).Kwh?
    ensures TotalKwh(mvs) == Kwh(TotalKwh(a).value + TotalKwh(b).value)
  {
    PermutationFacts(mvs, a + b);
    TotalIsOrderIndependent(mvs, a + b);
    PartsOfSeries(mvs, a, b);
    assert u in a + b;
    IntervalTotal(a, u);
    IntervalTotal(b, v);
    IntervalTotal(a + b, u);
    ReadingSumAdds(a, b, Interval);
  }

  /** With net values only, the total is the latest. */
  lemma NetTotal(mvs: seq<MeterValue>, latest: MeterValue)
    requires Sampled(mvs) && DistinctTimes(mvs)
    requires NoReading(mvs, Register) && NoReading(mvs, Interval) && Readable(mvs, Net)
    requires HasReading(mvs, latest, Net)
    requires forall mv :: HasReading(mvs, mv, Net) ==> mv.timestamp <= latest.timestamp
    ensures TotalKwh(mvs) == Kwh(ReadingOf(latest, Net).kwh)
  {
    MapFacts(mvs, Register);
    MapFacts(mvs, Interval);
    MapFacts(mvs, Net);
    var valid := FilterValid(mvs);
    FilteredElements(mvs);
    FilterKeepsDistinctTimes(mvs);
    MapTabulates(valid, Net);
    var nets := ValuesMap(valid, Net).value;
    assert latest in valid && latest.timestamp in nets;
    forall ts | ts in nets ensures ts <= latest.timestamp {
      var mv :| mv in valid && mv.timestamp == ts && ReadingOf(mv, Net).Value?;
      assert HasReading(mvs, mv, Net);
    }
    assert IsGreatest(nets.Keys, latest.timestamp);
  }

  lemma NothingReadIsZero(mvs: seq<MeterValue>)
    requires Sampled(mvs) && NoReading(mvs, Register) && NoReading(mvs, Interval) && NoReading(mvs, Net)
    ensures TotalKwh(mvs) == Kwh(0.0)
  {
    MapFacts(mvs, Register);
    MapFacts(mvs, Interval);
    MapFacts(mvs, Net);
  }

  /** A meter value taken on another occasion changes nothing, wherever it stands. */
  lemma OtherContextIsIgnored(a: seq<MeterValue>, mv: MeterValue, b: seq<MeterValue>)
    requires Sampled(a + [mv] + b) && mv.sampledValue[0].context == Some(OtherContext)
    ensures Sampled(a + b) && TotalKwh(a + [mv] + b) == TotalKwh(a + b)
  {
    assert forall v :: v in a + b ==> v in a + [mv] + b;
    FilterSkips(a, mv, b);
  }

  lemma {:induction false} FilterSkips(a: seq<MeterValue>, mv: MeterValue, b: seq<MeterValue>)
    requires Sampled(a + [mv] + b) && Sampled(a + b) && !Counts(mv)
    ensures FilterValid(a + [mv] + b) == FilterValid(a + b)
    decreases |a|
  {
    assert mv in a + [mv] + b;
    if a == [] {
      assert a + b == b && (a + [mv] + b)[1..] == b;
    } else {
      assert (a + [mv] + b)[1..] == a[1..] + [mv] + b && (a + b)[1..] == a[1..] + b;
      assert forall v :: v in a[1..] + [mv] + b ==> v in a + [mv] + b;
      assert forall v :: v in a[1..] + b ==> v in a + b;
      FilterSkips(a[1..], mv, b);
    }
  }

  /** Of several readings with one timestamp the last one counts, whether timestamps are distinct or not. */
  lemma {:induction false} LastReadingCounts(mvs: seq<MeterValue>, measurand: Measurand, i: nat)
    requires ValuesMap(mvs, measurand).Some? && i < |mvs| && ReadingOf(mvs[i], measurand).Value?
    requires forall j :: i < j < |mvs| && mvs[j].timestamp == mvs[i].timestamp ==> ReadingOf(mvs[j], measurand).Absent?
    ensures var values := ValuesMap(mvs, measurand).value;
            && mvs[i].timestamp in values
            && values[mvs[i].timestamp] == ReadingOf(mvs[i], measurand).kwh
    decreases |mvs|
  {
    if i < |mvs| - 1 {
      var before := mvs[..|mvs| - 1];
      assert forall j :: 0 <= j < |before| ==> before[j] == mvs[j];
      LastReadingCounts(before, measurand, i);
    }
  }

  // The reading of one meter value.

  /** The first value of the measurand without a phase is read; a value that names no measurand is a register. */
  lemma {:induction false} FirstUnphasedIsRead(svs: seq<SampledValue>, measurand: Measurand, i: nat)
    requires i < |svs| && svs[i].measurand.OrElse(Register) == measurand && svs[i].phase == None
    requires forall j :: 0 <= j < i ==> svs[j].measurand.OrElse(Register) != measurand || svs[j].phase.Some?
    ensures FindMeasurandValue(svs, measurand, false) == NormalizeToKwh(svs[i])
    ensures forall ts :: ReadingOf(MeterValue(ts, svs), measurand) == NormalizeToKwh(svs[i])
    decreases i
  {
    if i > 0 {
      FirstUnphasedIsRead(svs[1..], measurand, i - 1);
    }
  }

  predicate OnOneOf(sv: SampledValue, measurand: Measurand, phases: set<Phase>) {
    sv.measurand == Some(measurand) && sv.phase.Some? && sv.phase.value in phases
  }

  /** What the values of a measurand on some of the phases add up to. */
  function PhaseSum(svs: seq<SampledValue>, measurand: Measurand, phases: set<Phase>): real
    decreases |svs|
  {
    if svs == [] then 0.0
    else
      (if OnOneOf(svs[0], measurand, phases) && NormalizeToKwh(svs[0]).Value? then NormalizeToKwh(svs[0]).kwh else 0.0)
      + PhaseSum(svs[1..], measurand, phases)
  }

  /** The value on the phases, if there is one: their sum, unless a unit is unknown. */
  predicate AddsUp(reading: Reading, svs: seq<SampledValue>, measurand: Measurand, phases: set<Phase>) {
    reading == if exists sv :: sv in svs && OnOneOf(sv, measurand, phases) && NormalizeToKwh(sv).Throws? then Throws
               else Value(PhaseSum(svs, measurand, phases))
  }

  /** Without an unphased value, a register or interval is the sum over L1 to L3 if there is a value on one of these,
      else over the same phases to neutral, else absent; a net value is absent. */
  lemma PhasesAddUp(mv: MeterValue, measurand: Measurand)
    requires forall sv :: sv in mv.sampledValue ==> sv.measurand.OrElse(Register) != measurand || sv.phase.Some?
    ensures var svs, reading := mv.sampledValue, ReadingOf(mv, measurand);
            if measurand == Net then reading == Absent
            else if exists sv :: sv in svs && OnOneOf(sv, measurand, {L1, L2, L3}) then
              AddsUp(reading, svs, measurand, {L1, L2, L3})
            else if exists sv :: sv in svs && OnOneOf(sv, measurand, {L1_N, L2_N, L3_N}) then
              AddsUp(reading, svs, measurand, {L1_N, L2_N, L3_N})
            else reading == Absent
  {
    NothingUnphased(mv.sampledValue, measurand);
    AnyOnPhases(mv.sampledValue, measurand, false);
    AnyOnPhases(mv.sampledValue, measurand, true);
    SumOnPhases(mv.sampledValue, measurand, false);
    SumOnPhases(mv.sampledValue, measurand, true);
  }

  lemma {:induction false} NothingUnphased(svs: seq<SampledValue>, measurand: Measurand)
    requires forall sv :: sv in svs ==> sv.measurand.OrElse(Register) != measurand || sv.phase.Some?
    ensures FindMeasurandValue(svs, measurand, false) == Absent
    decreases |svs|
  {
    if svs != [] {
      assert svs[0] in svs;
      NothingUnphased(svs[1..], measurand);
    }
  }

  function PhaseSet(neutral: bool): set<Phase> {
    if neutral then {L1_N, L2_N, L3_N} else {L1, L2, L3}
  }

  lemma {:induction false} AnyOnPhases(svs: seq<SampledValue>, measurand: Measurand, neutral: bool)
    ensures OnPhases(svs, measurand, neutral) != [] <==>
            exists sv :: sv in svs && OnOneOf(sv, measurand, PhaseSet(neutral))
    decreases |svs|
  {
    if svs != [] {
      AnyOnPhases(svs[1..], measurand, neutral);
      assert OnPhase(svs[0], measurand, neutral) <==> OnOneOf(svs[0], measurand, PhaseSet(neutral));
      assert forall sv :: sv in svs <==> sv == svs[0] || sv in svs[1..];
    }
  }

  lemma {:induction false} SumOnPhases(svs: seq<SampledValue>, measurand: Measurand, neutral: bool)
    ensures AddsUp(Sum(OnPhases(svs, measurand, neutral)), svs, measurand, PhaseSet(neutral))
    decreases |svs|
  {
    if svs != [] {
      SumOnPhases(svs[1..], measurand, neutral);
      assert forall sv :: sv in svs <==> sv == svs[0] || sv in svs[1..];
      if OnPhase(svs[0], measurand, neutral) {
        SumFromFront(svs[0], OnPhases(svs[1..], measurand, neutral));
      }
    }
  }

  lemma {:induction false} SumFromFront(sv: SampledValue, rest: seq<SampledValue>)
    ensures Sum([sv] + rest) == Plus(NormalizeToKwh(sv), Sum(rest))
    decreases |rest|
  {
    if rest == [] {
      assert [sv] + rest == [sv] && [sv][..0] == [];
    } else {
      assert ([sv] + rest)[..|rest|] == [sv] + rest[..|rest| - 1];
      SumFromFront(sv, rest[..|rest| - 1]);
    }
  }

  // Units.

  lemma {:induction false} TenTimesMore(e: int)
    ensures Pow10(e + 1) == 10.0 * Pow10(e)
  {
  }

  lemma AThousandth()
    ensures Pow10(0) == 1.0 && Pow10(-3) == 0.001
  {
    assert Pow10(-3) == Pow10(-2) / 10.0 && Pow10(-2) == Pow10(-1) / 10.0 && Pow10(-1) == Pow10(0) / 10.0;
  }

  /** Wh unless another unit is named; a kWh is a thousand of them, and a multiplier one higher makes ten times as
      much. */
  lemma UnitsOfEnergy(sv: SampledValue, unit: string, multiplier: int)
    ensures NormalizeToKwh(sv.(unitOfMeasure := None)) == Value(sv.value / 1000.0)
    ensures NormalizeToKwh(sv.(unitOfMeasure := Some(UnitOfMeasure(None, None)))) == Value(sv.value / 1000.0)
    ensures NormalizeToKwh(sv.(unitOfMeasure := Some(UnitOfMeasure(Some("Wh"), None)))) == Value(sv.value / 1000.0)
    ensures NormalizeToKwh(sv.(unitOfMeasure := Some(UnitOfMeasure(Some("kWh"), None)))) == Value(sv.value)
    ensures var one := NormalizeToKwh(sv.(unitOfMeasure := Some(UnitOfMeasure(Some(unit), Some(multiplier)))));
            var ten := NormalizeToKwh(sv.(unitOfMeasure := Some(UnitOfMeasure(Some(unit), Some(multiplier + 1)))));
            && one != Absent && (one.Throws? <==> ten.Throws?)
            && (one.Value? ==> ten == Value(10.0 * one.kwh))
    ensures NormalizeToKwh(sv.(unitOfMeasure := Some(UnitOfMeasure(Some(unit), None)))) ==
            NormalizeToKwh(sv.(unitOfMeasure := Some(UnitOfMeasure(Some(unit), Some(0)))))
  {
    EnergyUnits();
    AThousandth();
    TenTimesMore(multiplier);
    TenTimesMore(multiplier - 3);
  }

  lemma EnergyUnits()
    ensures Upper("Wh") == "WH" && Upper("kWh") == "KWH"
  {
    assert Upper("h") == "H";
    assert "Wh"[1..] == "h" && Upper("Wh") == "WH";
    assert "kWh"[1..] == "Wh" && Upper("kWh") == "KWH";
  }

  /** The same text but for the case of its letters. */
  predicate SameLetters(a: string, b: string) {
    |a| == |b| && forall i :: 0 <= i < |a| ==>
      a[i] == b[i] || ('a' <= a[i] <= 'z' && b[i] as int == a[i] as int - 32)
      || ('a' <= b[i] <= 'z' && a[i] as int == b[i] as int - 32)
  }

  lemma {:induction false} SameUpper(a: string, b: string)
    requires SameLetters(a, b)
    ensures Upper(a) == Upper(b)
    decreases |a|
  {
    if a != "" {
      SameUpper(a[1..], b[1..]);
    }
  }

  lemma {:induction false} UpperIsSame(a: string)
    ensures |Upper(a)| == |a| && SameLetters(a, Upper(a))
    decreases |a|
  {
    if a != "" {
      UpperIsSame(a[1..]);
    }
  }

  lemma UpperIff(unit: string, known: string)
    requires forall i :: 0 <= i < |known| ==> 'A' <= known[i] <= 'Z'
    ensures Upper(unit) == known <==> SameLetters(unit, known)
  {
    UpperIsSame(unit);
    KnownAreUpper(known);
    if SameLetters(unit, known) {
      SameUpper(unit, known);
    }
  }

  /** A unit is known exactly if it is one of six, in whatever case. */
  lemma UnknownUnitThrowsIff(sv: SampledValue, unit: string)
    requires UnitOf(sv) == Some(unit)
    ensures NormalizeToKwh(sv).Throws? <==>
            forall known :: known in ["WH", "VARH", "VAH", "KWH", "KVARH", "KVAH"] ==> !SameLetters(unit, known)
  {
    UpperIff(unit, "WH");
    UpperIff(unit, "VARH");
    UpperIff(unit, "VAH");
    UpperIff(unit, "KWH");
    UpperIff(unit, "KVARH");
    UpperIff(unit, "KVAH");
  }

  lemma {:induction false} KnownAreUpper(s: string)
    requires forall i :: 0 <= i < |s| ==> 'A' <= s[i] <= 'Z'
    ensures Upper(s) == s
    decreases |s|
  {
    if s != "" {
      KnownAreUpper(s[1..]);
    }
  }

  // Units do not matter.

  /** The same reading, perhaps written in another unit. */
  predicate SameReading(u: SampledValue, v: SampledValue) {
    && u.context == v.context && u.measurand == v.measurand && u.phase == v.phase
    && NormalizeToKwh(u) == NormalizeToKwh(v)
  }

  predicate SameReadings(a: seq<SampledValue>, b: seq<SampledValue>) {
    |a| == |b| && forall i :: 0 <= i < |a| ==> SameReading(a[i], b[i])
  }

  predicate SameMeterValue(a: MeterValue, b: MeterValue) {
    a.timestamp == b.timestamp && SameReadings(a.sampledValue, b.sampledValue)
  }

  predicate SameMeterValues(a: seq<MeterValue>, b: seq<MeterValue>) {
    |a| == |b| && forall i :: 0 <= i < |a| ==> SameMeterValue(a[i], b[i])
  }

  lemma {:induction false} SameFind(a: seq<SampledValue>, b: seq<SampledValue>, measurand: Measurand, phased: bool)
    requires SameReadings(a, b)
    ensures FindMeasurandValue(a, measurand, phased) == FindMeasurandValue(b, measurand, phased)
    decreases |a|
  {
    if a != [] {
      assert SameReading(a[0], b[0]);
      SameFind(a[1..], b[1..], measurand, phased);
    }
  }

  lemma OneMoreSameReading(x: SampledValue, y: SampledValue, a: seq<SampledValue>, b: seq<SampledValue>)
    requires SameReading(x, y) && SameReadings(a, b)
    ensures SameReadings([x] + a, [y] + b)
  {
    forall i | 0 <= i < |a| + 1 ensures SameReading(([x] + a)[i], ([y] + b)[i]) {
      if i > 0 {
        assert SameReading(a[i - 1], b[i - 1]);
      }
    }
  }

  lemma {:induction false} SameOnPhases(a: seq<SampledValue>, b: seq<SampledValue>, measurand: Measurand, neutral: bool)
    requires SameReadings(a, b)
    ensures SameReadings(OnPhases(a, measurand, neutral), OnPhases(b, measurand, neutral))
    decreases |a|
  {
    if a != [] {
      assert SameReading(a[0], b[0]);
      SameOnPhases(a[1..], b[1..], measurand, neutral);
      OneMoreSameReading(a[0], b[0], OnPhases(a[1..], measurand, neutral), OnPhases(b[1..], measurand, neutral));
    }
  }

  lemma {:induction false} SameSum(a: seq<SampledValue>, b: seq<SampledValue>)
    requires SameReadings(a, b)
    ensures Sum(a) == Sum(b)
    decreases |a|
  {
    if a != [] {
      assert SameReading(a[|a| - 1], b[|a| - 1]);
      SameSum(a[..|a| - 1], b[..|a| - 1]);
    }
  }

  lemma SameReadingOf(a: MeterValue, b: MeterValue, measurand: Measurand)
    requires SameMeterValue(a, b)
    ensures ReadingOf(a, measurand) == ReadingOf(b, measurand)
  {
    SameFind(a.sampledValue, b.sampledValue, measurand, false);
    forall neutral: bool
      ensures SameReadings(OnPhases(a.sampledValue, measurand, neutral), OnPhases(b.sampledValue, measurand, neutral))
      ensures Sum(OnPhases(a.sampledValue, measurand, neutral)) == Sum(OnPhases(b.sampledValue, measurand, neutral))
    {
      SameOnPhases(a.sampledValue, b.sampledValue, measurand, neutral);
      SameSum(OnPhases(a.sampledValue, measurand, neutral), OnPhases(b.sampledValue, measurand, neutral));
    }
  }

  lemma {:induction false} SameValuesMap(a: seq<MeterValue>, b: seq<MeterValue>, measurand: Measurand)
    requires SameMeterValues(a, b)
    ensures ValuesMap(a, measurand) == ValuesMap(b, measurand)
    decreases |a|
  {
    if a != [] {
      SameReadingOf(a[|a| - 1], b[|a| - 1], measurand);
      SameValuesMap(a[..|a| - 1], b[..|a| - 1], measurand);
    }
  }

  lemma SameContext(a: MeterValue, b: MeterValue)
    requires SameMeterValue(a, b) && a.sampledValue != []
    ensures b.sampledValue != [] && (ValidContext(a) <==> ValidContext(b))
  {
    assert SameReading(a.sampledValue[0], b.sampledValue[0]);
  }

  lemma OneMoreSame(x: MeterValue, y: MeterValue, a: seq<MeterValue>, b: seq<MeterValue>)
    requires SameMeterValue(x, y) && SameMeterValues(a, b)
    ensures SameMeterValues([x] + a, [y] + b)
  {
    forall i | 0 <= i < |a| + 1 ensures SameMeterValue(([x] + a)[i], ([y] + b)[i]) {
      if i > 0 {
        assert SameMeterValue(a[i - 1], b[i - 1]);
      }
    }
  }

  lemma {:induction false} SameFiltered(a: seq<MeterValue>, b: seq<MeterValue>)
    requires Sampled(a) && Sampled(b) && SameMeterValues(a, b)
    ensures SameMeterValues(FilterValid(a), FilterValid(b))
    decreases |a|
  {
    if a != [] {
      assert SameMeterValue(a[0], b[0]);
      assert SameMeterValues(a[1..], b[1..]);
      SameContext(a[0], b[0]);
      SameFiltered(a[1..], b[1..]);
      OneMoreSame(a[0], b[0], FilterValid(a[1..]), FilterValid(b[1..]));
    }
  }

  /** Meter values with the same readings have the same total through all three fallbacks and the phase sums. */
  lemma TotalIgnoresUnits(a: seq<MeterValue>, b: seq<MeterValue>)
    requires Sampled(a) && Sampled(b) && SameMeterValues(a, b)
    ensures TotalKwh(a) == TotalKwh(b)
  {
    SameFiltered(a, b);
    SameValuesMap(FilterValid(a), FilterValid(b), Register);
    SameValuesMap(FilterValid(a), FilterValid(b), Interval);
    SameValuesMap(FilterValid(a), FilterValid(b), Net);
  }

  /** A reading in Wh, said outright or by default, written in kWh with a multiplier three less. */
  function InKwh(sv: SampledValue): SampledValue {
    if UnitOf(sv).Some? && !IsPlain(UnitOf(sv).value) then sv
    else sv.(unitOfMeasure := Some(UnitOfMeasure(Some("kWh"), Some(MultiplierOf(sv) - 3))))
  }

  lemma InKwhIsSameReading(sv: SampledValue)
    ensures SameReading(sv, InKwh(sv))
  {
    EnergyUnits();
    if UnitOf(sv).Some? && IsPlain(UnitOf(sv).value) {
      assert !IsKilo(UnitOf(sv).value);
    }
  }

  function AllInKwh(mvs: seq<MeterValue>): seq<MeterValue> {
    seq(|mvs|, i requires 0 <= i < |mvs| =>
      mvs[i].(sampledValue := seq(|mvs[i].sampledValue|,
                                  j requires 0 <= j < |mvs[i].sampledValue| => InKwh(mvs[i].sampledValue[j]))))
  }

  /** Rewriting every Wh reading in kWh leaves the total unchanged. */
  lemma RewritingInKwhKeepsTotal(mvs: seq<MeterValue>)
    requires Sampled(mvs)
    ensures Sampled(AllInKwh(mvs)) && TotalKwh(AllInKwh(mvs)) == TotalKwh(mvs)
  {
    var all := AllInKwh(mvs);
    forall i | 0 <= i < |mvs| ensures SameMeterValue(mvs[i], all[i]) && all[i].sampledValue != [] {
      forall j | 0 <= j < |mvs[i].sampledValue|
        ensures SameReading(mvs[i].sampledValue[j], all[i].sampledValue[j])
      {
        InKwhIsSameReading(mvs[i].sampledValue[j]);
      }
      assert mvs[i] in mvs;
    }
    TotalIgnoresUnits(mvs, all);
  }
}
