/** Conversions between the two storage formats of hourly usage data. */
module UsageData {

  datatype Usage = Usage(up: nat, down: nat, price: nat)

  datatype IndexedUsageHour = IndexedUsageHour(index: nat, up: nat, down: nat, price: nat)

  type History = map<nat, Usage>

  function Max(a: nat, b: nat): nat { if a < b then b else a }

  function UsageOf(h: IndexedUsageHour): Usage { Usage(h.up, h.down, h.price) }

  function Larger(u: Usage, h: IndexedUsageHour): Usage {
    Usage(Max(u.up, h.up), Max(u.down, h.down), Max(u.price, h.price))
  }

  function Insert(m: History, h: IndexedUsageHour): History {
    m[h.index := if h.index in m then Larger(m[h.index], h) else UsageOf(h)]
  }

  /** What the loop over the flat entries builds. */
  function ToMap(input: seq<IndexedUsageHour>): History {
    if input == [] then map[] else Insert(ToMap(input[..|input| - 1]), input[|input| - 1])
  }

  /** `convert_flat_to_map_usage_data`. */
  method ConvertFlatToMap(input: seq<IndexedUsageHour>) returns (out: History)
    ensures out == ToMap(input)
  {
    out := map[];
    var i := 0;
    while i < |input|
      invariant 0 <= i <= |input| && out == ToMap(input[..i])
    {
      var hour := input[i];
      assert input[..i + 1][..i] == input[..i];
      if hour.index in out {
        var duplicate := out[hour.index];
        out := out[hour.index := Usage(Max(duplicate.up, hour.up), Max(duplicate.down, hour.down),
                                       Max(duplicate.price, hour.price))];
      } else {
        out := out[hour.index := Usage(hour.up, hour.down, hour.price)];
      }
      i := i + 1;
    }
    assert input[..i] == input;
  }

  // ------------------------------------------------------------------ the pointwise maximum

  /** `u` is the largest value of each kind among the entries of hour `index`, and each kind occurs. */
  ghost predicate IsMaximum(entries: set<IndexedUsageHour>, index: nat, u: Usage) {
    (forall h :: h in entries && h.index == index ==> h.up <= u.up && h.down <= u.down && h.price <= u.price) &&
    (exists h :: h in entries && h.index == index && h.up == u.up) &&
    (exists h :: h in entries && h.index == index && h.down == u.down) &&
    (exists h :: h in entries && h.index == index && h.price == u.price)
  }

  ghost function Entries(input: seq<IndexedUsageHour>): set<IndexedUsageHour> { set h | h in input }

  ghost function Hours(entries: set<IndexedUsageHour>): set<nat> { set h | h in entries :: h.index }

  lemma {:induction false} MaximumInsert(entries: set<IndexedUsageHour>, h: IndexedUsageHour, u: Usage)
    requires IsMaximum(entries, h.index, u)
    ensures IsMaximum(entries + {h}, h.index, Larger(u, h))
  {
    var a :| a in entries && a.index == h.index && a.up == u.up;
    var b :| b in entries && b.index == h.index && b.down == u.down;
    var c :| c in entries && c.index == h.index && c.price == u.price;
    assert a in entries + {h} && b in entries + {h} && c in entries + {h} && h in entries + {h};
  }

  lemma MaximumKept(entries: set<IndexedUsageHour>, h: IndexedUsageHour, index: nat, u: Usage)
    requires IsMaximum(entries, index, u) && h.index != index
    ensures IsMaximum(entries + {h}, index, u)
  {
    var a :| a in entries && a.index == index && a.up == u.up;
    var b :| b in entries && b.index == index && b.down == u.down;
    var c :| c in entries && c.index == index && c.price == u.price;
    assert a in entries + {h} && b in entries + {h} && c in entries + {h};
  }

  lemma MaximumAlone(entries: set<IndexedUsageHour>, h: IndexedUsageHour)
    requires h.index !in Hours(entries)
    ensures IsMaximum(entries + {h}, h.index, UsageOf(h))
  {
    assert h in entries + {h};
  }

  /** The map has exactly the hours that occur, each with the largest value of each kind. */
  lemma {:induction false} ToMapIsMaximum(input: seq<IndexedUsageHour>)
    ensures ToMap(input).Keys == Hours(Entries(input))
    ensures forall k :: k in ToMap(input) ==> IsMaximum(Entries(input), k, ToMap(input)[k])
  {
    if input != [] {
      hide IsMaximum, Larger;
      var before, h := input[..|input| - 1], input[|input| - 1];
      ToMapIsMaximum(before);
      EntriesSnoc(input);
      forall k | k in ToMap(input) ensures IsMaximum(Entries(input), k, ToMap(input)[k]) {
        if k != h.index {
          MaximumKept(Entries(before), h, k, ToMap(before)[k]);
        } else if k in ToMap(before) {
          MaximumInsert(Entries(before), h, ToMap(before)[k]);
        } else {
          MaximumAlone(Entries(before), h);
        }
      }
    }
  }

  lemma EntriesSnoc(input: seq<IndexedUsageHour>)
    requires input != []
    ensures Entries(input) == Entries(input[..|input| - 1]) + {input[|input| - 1]}
    ensures Hours(Entries(input)) == Hours(Entries(input[..|input| - 1])) + {input[|input| - 1].index}
  {
    assert input == input[..|input| - 1] + [input[|input| - 1]];
    assert input[|input| - 1] in Entries(input);
  }

  lemma MaximumUnique(entries: set<IndexedUsageHour>, index: nat, u: Usage, v: Usage)
    requires IsMaximum(entries, index, u) && IsMaximum(entries, index, v)
    ensures u == v
  {
  }

  /** So reordering or repeating entries does not change the map. */
  lemma OrderAndRepetitionIgnored(a: seq<IndexedUsageHour>, b: seq<IndexedUsageHour>)
    requires Entries(a) == Entries(b)
    ensures ToMap(a) == ToMap(b)
  {
    hide IsMaximum;
    ToMapIsMaximum(a);
    ToMapIsMaximum(b);
    forall k | k in ToMap(a) ensures ToMap(a)[k] == ToMap(b)[k] {
      MaximumUnique(Entries(a), k, ToMap(a)[k], ToMap(b)[k]);
    }
  }

  // ------------------------------------------------------------------ back to the flat format

  ghost predicate Ascending(s: seq<IndexedUsageHour>) {
    forall i, j :: 0 <= i < j < |s| ==> s[i].index < s[j].index
  }

  function EntryOf(k: nat, u: Usage): IndexedUsageHour { IndexedUsageHour(k, u.up, u.down, u.price) }

  ghost function EntriesAt(m: History, hours: set<nat>): set<IndexedUsageHour>
    requires hours <= m.Keys
  {
    set k | k in hours :: EntryOf(k, m[k])
  }

  ghost function EntriesOf(m: History): set<IndexedUsageHour> { EntriesAt(m, m.Keys) }

  lemma Push(m: History, hours: set<nat>, out: seq<IndexedUsageHour>, k: nat)
    requires hours <= m.Keys && k in m.Keys - hours
    requires Distinct(out) && Entries(out) == EntriesAt(m, hours)
    ensures Distinct(out + [EntryOf(k, m[k])])
    ensures Entries(out + [EntryOf(k, m[k])]) == EntriesAt(m, hours + {k})
  {
    var h := EntryOf(k, m[k]);
    forall i | 0 <= i < |out| ensures out[i].index != k {
      assert out[i] in Entries(out);
    }
    EntriesSnoc(out + [h]);
    assert (out + [h])[..|out|] == out;
    assert EntriesAt(m, hours + {k}) == EntriesAt(m, hours) + {h};
  }

  ghost predicate Distinct(s: seq<IndexedUsageHour>) {
    forall i, j :: 0 <= i < j < |s| ==> s[i].index != s[j].index
  }

  lemma PlacedEntries(s: seq<IndexedUsageHour>, i: nat, h: IndexedUsageHour)
    requires i <= |s|
    ensures Entries(s[..i] + [h] + s[i..]) == Entries(s) + {h}
  {
    assert s == s[..i] + s[i..];
    assert forall x :: x in s[..i] + s[i..] <==> x in s[..i] || x in s[i..];
  }

  lemma PlacedAscending(s: seq<IndexedUsageHour>, i: nat, h: IndexedUsageHour)
    requires Ascending(s) && i <= |s|
    requires i > 0 ==> s[i - 1].index < h.index
    requires i < |s| ==> h.index < s[i].index
    ensures Ascending(s[..i] + [h] + s[i..])
  {
    assert forall k :: 0 <= k < i ==> s[k].index <= s[i - 1].index;
    assert forall k :: i <= k < |s| ==> s[i].index <= s[k].index;
  }

  lemma OtherHours(s: seq<IndexedUsageHour>, h: IndexedUsageHour)
    requires h.index !in Hours(Entries(s))
    ensures forall i :: 0 <= i < |s| ==> s[i].index != h.index
  {
    forall i | 0 <= i < |s| ensures s[i].index != h.index {
      assert s[i] in Entries(s);
    }
  }

  /** Places an entry behind those with a smaller hour: one step of the sort. */
  method Place(sorted: seq<IndexedUsageHour>, h: IndexedUsageHour) returns (r: seq<IndexedUsageHour>)
    requires Ascending(sorted) && h.index !in Hours(Entries(sorted))
    ensures Ascending(r) && Entries(r) == Entries(sorted) + {h} && |r| == |sorted| + 1
  {
    hide *;
    var i := 0;
    while i < |sorted| && sorted[i].index < h.index
      invariant 0 <= i <= |sorted| && (i > 0 ==> sorted[i - 1].index < h.index)
    {
      i := i + 1;
    }
    OtherHours(sorted, h);
    PlacedEntries(sorted, i, h);
    PlacedAscending(sorted, i, h);
    r := sorted[..i] + [h] + sorted[i..];
  }

  /** Sorting by hour, for entries whose hours differ. */
  method SortByHour(input: seq<IndexedUsageHour>) returns (sorted: seq<IndexedUsageHour>)
    requires Distinct(input)
    ensures Ascending(sorted) && Entries(sorted) == Entries(input) && |sorted| == |input|
  {
    sorted := [];
    var i := 0;
    while i < |input|
      invariant 0 <= i <= |input| && |sorted| == i
      invariant Ascending(sorted) && Entries(sorted) == Entries(input[..i])
    {
      assert input[..i + 1][..i] == input[..i];
      EntriesSnoc(input[..i + 1]);
      assert forall h :: h in Entries(input[..i]) ==> h.index != input[i].index;
      sorted := Place(sorted, input[i]);
      i := i + 1;
    }
    assert input[..i] == input;
  }

  /** `convert_map_to_flat_usage_data`: the entries in any iteration order, then sorted by hour. */
  method ConvertMapToFlat(input: History) returns (out: seq<IndexedUsageHour>)
    ensures Ascending(out) && Entries(out) == EntriesOf(input) && |out| == |input|
  {
    out := [];
    var todo := input.Keys;
    while todo != {}
      invariant todo <= input.Keys && |out| + |todo| == |input|
      invariant Distinct(out) && Entries(out) == EntriesAt(input, input.Keys - todo)
      decreases todo
    {
      hide *;
      var hour :| hour in todo;
      Push(input, input.Keys - todo, out, hour);
      out := out + [IndexedUsageHour(hour, input[hour].up, input[hour].down, input[hour].price)];
      todo := todo - {hour};
      assert input.Keys - todo == input.Keys - (todo + {hour}) + {hour};
    }
    assert input.Keys - todo == input.Keys;
    out := SortByHour(out);
  }

  lemma MaximumOfMap(m: History, k: nat)
    requires k in m
    ensures IsMaximum(EntriesOf(m), k, m[k])
  {
    assert EntryOf(k, m[k]) in EntriesOf(m);
  }

  lemma HoursOf(m: History)
    ensures Hours(EntriesOf(m)) == m.Keys
  {
    forall k | k in m ensures k in Hours(EntriesOf(m)) {
      assert EntryOf(k, m[k]) in EntriesOf(m);
    }
  }

  /** Flattening and converting back returns the map. */
  lemma FlatRoundTrip(m: History, flat: seq<IndexedUsageHour>)
    requires Entries(flat) == EntriesOf(m)
    ensures ToMap(flat) == m
  {
    ToMapIsMaximum(flat);
    HoursOf(m);
    hide *;
    forall k | k in m ensures ToMap(flat)[k] == m[k] {
      MaximumOfMap(m, k);
      MaximumUnique(EntriesOf(m), k, ToMap(flat)[k], m[k]);
    }
  }

  lemma EmptyIff(s: seq<IndexedUsageHour>)
    ensures Entries(s) == {} <==> s == []
  {
    if s != [] {
      assert s[0] in Entries(s);
    }
  }

  /** There is only one ascending list of a given set of entries. */
  lemma {:induction false} FlatIsUnique(a: seq<IndexedUsageHour>, b: seq<IndexedUsageHour>)
    requires Ascending(a) && Ascending(b) && Entries(a) == Entries(b)
    ensures a == b
    decreases |a|
  {
    if a == [] {
      EmptyIff(b);
    } else {
      EmptyIff(a);
      EmptyIff(b);
      var x, y := a[|a| - 1], b[|b| - 1];
      assert x in Entries(b) && y in Entries(a);
      assert x == y;
      EntriesInit(a);
      EntriesInit(b);
      FlatIsUnique(a[..|a| - 1], b[..|b| - 1]);
      assert a == a[..|a| - 1] + [x] && b == b[..|b| - 1] + [y];
    }
  }

  lemma EntriesInit(s: seq<IndexedUsageHour>)
    requires s != [] && Ascending(s)
    ensures Entries(s[..|s| - 1]) == Entries(s) - {s[|s| - 1]}
  {
    EntriesSnoc(s);
    assert s[|s| - 1] !in s[..|s| - 1];
  }

  lemma {:induction false} EntriesKept(flat: seq<IndexedUsageHour>)
    requires Distinct(flat)
    ensures EntriesOf(ToMap(flat)) == Entries(flat)
  {
    if flat != [] {
      var before, h := flat[..|flat| - 1], flat[|flat| - 1];
      EntriesKept(before);
      EntriesSnoc(flat);
      ToMapIsMaximum(before);
      assert h.index !in ToMap(before);
      EntriesGrow(ToMap(before), h);
    }
  }

  lemma EntriesGrow(m: History, h: IndexedUsageHour)
    requires h.index !in m
    ensures EntriesOf(m[h.index := UsageOf(h)]) == EntriesOf(m) + {h}
  {
    var n := m[h.index := UsageOf(h)];
    assert EntriesAt(n, m.Keys) == EntriesAt(m, m.Keys);
    assert n.Keys == m.Keys + {h.index} && EntryOf(h.index, n[h.index]) == h;
  }

  /** An ascending list survives conversion to a map and back. */
  lemma AscendingRoundTrip(flat: seq<IndexedUsageHour>, back: seq<IndexedUsageHour>)
    requires Ascending(flat) && Ascending(back) && Entries(back) == EntriesOf(ToMap(flat))
    ensures back == flat
  {
    EntriesKept(flat);
    FlatIsUnique(back, flat);
  }

  // ------------------------------------------------------------------ the last saved hour

  datatype UsageTracker = UsageTracker(client: History, relay: History, exit: History)

  method HighestKey(data: History, floor: nat) returns (highest: nat)
    ensures highest >= floor && (highest == floor || highest in data)
    ensures forall k :: k in data ==> k <= highest
  {
    highest := floor;
    var todo := data.Keys;
    while todo != {}
      invariant todo <= data.Keys && highest >= floor && (highest == floor || highest in data)
      invariant forall k :: k in data && k !in todo ==> k <= highest
      decreases todo
    {
      var k :| k in todo;
      highest := Max(highest, k);
      todo := todo - {k};
    }
  }

  /** `last_save_hour`: the largest hour of the three histories, 0 when there is none. */
  method LastSaveHour(t: UsageTracker) returns (highest: nat)
    ensures var keys := t.client.Keys + t.relay.Keys + t.exit.Keys;
      (forall k :: k in keys ==> k <= highest) && (if keys == {} then highest == 0 else highest in keys)
  {
    highest := HighestKey(t.client, 0);
    highest := HighestKey(t.relay, highest);
    highest := HighestKey(t.exit, highest);
    ghost var keys := t.client.Keys + t.relay.Keys + t.exit.Keys;
    if keys != {} {
      var k :| k in keys;
      assert k <= highest;
    }
  }
}
