/** The pytest warnings report: count duplicates, group and sum three times, write the nested sections. */
module WarningReport {
  import opened Prelude
  import opened Ordering
  import opened HtmlOutline

  datatype Warning = Warning(message: string, category: string, filename: string, lineno: int, location: string,
                             num: int, deprecated: bool)

  datatype Column = Category | Location | Message

  function Key(w: Warning, col: Column): string {
    match col
    case Category => w.category
    case Location => w.location
    case Message => w.message
  }

  datatype Group = Group(key: string, items: seq<Warning>, count: int)

  function Num(): Warning -> int { (w: Warning) => w.num }

  function Count(): Group -> int { (g: Group) => g.count }

  function Total(ws: seq<Warning>): int { SumBy(Num(), ws) }

  // ---------------------------------------------------------------- counting duplicates

  /** Every warning enters with the count 1. */
  function ConvertAll(raw: seq<Warning>): (r: seq<Warning>)
    ensures |r| == |raw|
  {
    seq(|raw|, i requires 0 <= i < |raw| => raw[i].(num := 1))
  }

  /** The distinct elements in order of first occurrence: the keys of a `Counter`. */
  function Firsts(s: seq<Warning>): seq<Warning> {
    if s == [] then []
    else
      var before, last := Firsts(s[..|s| - 1]), s[|s| - 1];
      if last in before then before else before + [last]
  }

  function CountAll(keys: seq<Warning>, m: multiset<Warning>): (r: seq<Warning>)
    ensures |r| == |keys|
  {
    seq(|keys|, i requires 0 <= i < |keys| => keys[i].(num := m[keys[i]]))
  }

  function Compress(data: seq<Warning>): seq<Warning> {
    CountAll(Firsts(data), multiset(data))
  }

  lemma {:induction false} FirstsFacts(s: seq<Warning>)
    ensures Distinct(Firsts(s))
    ensures forall w :: w in Firsts(s) ==> w in s
    ensures forall w :: w in s ==> w in Firsts(s)
  {
    if s != [] {
      FirstsFacts(s[..|s| - 1]);
      assert s == s[..|s| - 1] + [s[|s| - 1]];
    }
  }

  /** `Counter(data)`: the keys in order of first occurrence and their counts. */
  method BuildCounter(data: seq<Warning>) returns (keys: seq<Warning>, counter: map<Warning, int>)
    ensures keys == Firsts(data)
    ensures forall w :: w in keys ==> w in counter && counter[w] == multiset(data)[w]
  {
    keys, counter := [], map[];
    for i := 0 to |data|
      invariant keys == Firsts(data[..i])
      invariant forall w :: w in counter ==> w in keys
      invariant forall w :: w in keys ==> w in counter && counter[w] == multiset(data[..i])[w]
    {
      assert data[..i + 1] == data[..i] + [data[i]] && data[..i + 1][..i] == data[..i];
      FirstsFacts(data[..i]);
      if data[i] in counter {
        counter := counter[data[i] := counter[data[i]] + 1];
      } else {
        keys := keys + [data[i]];
        counter := counter[data[i] := 1];
      }
    }
    assert data[..|data|] == data;
  }

  /** Overwrites the `num` slot of each distinct row in place. */
  method CompressSimilarWarnings(data: seq<Warning>) returns (output: seq<Warning>)
    ensures output == Compress(data)
  {
    var keys, counter := BuildCounter(data);
    output := keys;
    for i := 0 to |output|
      invariant |output| == |keys|
      invariant forall j :: 0 <= j < i ==> output[j] == keys[j].(num := multiset(data)[keys[j]])
      invariant forall j :: i <= j < |keys| ==> output[j] == keys[j]
    {
      assert output[i] in keys;
      output := output[i := output[i].(num := counter[output[i]])];
    }
  }

  lemma {:induction false} CountOneMore(keys: seq<Warning>, m: multiset<Warning>, w: Warning)
    requires Distinct(keys)
    ensures Total(CountAll(keys, m + multiset{w})) == Total(CountAll(keys, m)) + if w in keys then 1 else 0
  {
    if keys == [] {
    } else {
      var rest := keys[1..];
      CountOneMore(rest, m, w);
      assert CountAll(keys, m)[1..] == CountAll(rest, m);
      assert CountAll(keys, m + multiset{w})[1..] == CountAll(rest, m + multiset{w});
      assert w in keys <==> w == keys[0] || w in rest;
      assert w == keys[0] ==> w !in rest;
    }
  }

  lemma {:induction false} CountNone(keys: seq<Warning>, m: multiset<Warning>, w: Warning)
    requires m[w] == 0
    ensures Total(CountAll(keys + [w], m)) == Total(CountAll(keys, m))
  {
    assert CountAll(keys + [w], m) == CountAll(keys, m) + [w.(num := 0)];
    SumByConcat(Num(), CountAll(keys, m), [w.(num := 0)]);
    assert [w.(num := 0)][1..] == [];
  }

  /** After compression the counts sum to the number of warnings, whatever the input. */
  lemma {:induction false} CompressConserves(data: seq<Warning>)
    ensures Total(Compress(data)) == |data|
  {
    if data == [] {
    } else {
      var front, last := data[..|data| - 1], data[|data| - 1];
      CompressConserves(front);
      FirstsFacts(front);
      FirstsFacts(data);
      assert data == front + [last];
      assert multiset(data) == multiset(front) + multiset{last};
      CountOneMore(Firsts(data), multiset(front), last);
      if last !in Firsts(front) {
        assert multiset(front)[last] == 0;
        CountNone(Firsts(front), multiset(front), last);
      }
    }
  }

  /** Rows that entered with equal counts are distinct after compression, and each distinct warning has a row with
      its number of occurrences. */
  lemma CompressDistinct(raw: seq<Warning>)
    ensures Distinct(Compress(ConvertAll(raw)))
    ensures forall w :: w in ConvertAll(raw) ==>
              w.(num := multiset(ConvertAll(raw))[w]) in Compress(ConvertAll(raw))
  {
    var data := ConvertAll(raw);
    var keys := Firsts(data);
    FirstsFacts(data);
    var out := Compress(data);
    forall i, j | 0 <= i < j < |out| ensures out[i] != out[j] {
      assert keys[i] in data && keys[j] in data && keys[i] != keys[j];
      assert keys[i].num == 1 && keys[j].num == 1;
    }
    forall w | w in data ensures w.(num := multiset(data)[w]) in out {
      var i :| 0 <= i < |keys| && keys[i] == w;
      assert out[i] == w.(num := multiset(data)[w]);
    }
  }

  // ---------------------------------------------------------------- grouping

  function KeyLe(col: Column): (Warning, Warning) -> bool {
    (a: Warning, b: Warning) => StringLe(Key(a, col), Key(b, col))
  }

  function HasKey(col: Column, k: string): Warning -> bool { (w: Warning) => Key(w, col) == k }

  function CountGe(): (Group, Group) -> bool { (a: Group, b: Group) => a.count >= b.count }

  /** A row joins the group in front of it when it has its key, and starts a group otherwise. */
  function Prepend(w: Warning, gs: seq<Group>, col: Column): seq<Group> {
    if gs != [] && gs[0].key == Key(w, col)
    then [Group(gs[0].key, [w] + gs[0].items, w.num + gs[0].count)] + gs[1..]
    else [Group(Key(w, col), [w], w.num)] + gs
  }

  /** `itertools.groupby` with the sum of each group: one group per stretch of equal keys. */
  function Runs(s: seq<Warning>, col: Column): seq<Group> {
    if s == [] then [] else Prepend(s[0], Runs(s[1..], col), col)
  }

  /** `group_and_sort_by_sumof(data, col, "num")` */
  function Grouped(data: seq<Warning>, col: Column): seq<Group> {
    Sort(CountGe(), Runs(Sort(KeyLe(col), data), col))
  }

  /** `list(generator)` for the group that starts at `i`, with its sum. */
  method TakeGroup(sorted: seq<Warning>, i: nat, col: Column) returns (value: seq<Warning>, sum: int, j: nat)
    requires i < |sorted|
    ensures i < j <= |sorted| && value == sorted[i..j] && sum == Total(value)
    ensures forall k :: i <= k < j ==> Key(sorted[k], col) == Key(sorted[i], col)
    ensures j < |sorted| ==> Key(sorted[j], col) != Key(sorted[i], col)
  {
    value, sum, j := [], 0, i;
    while j < |sorted| && Key(sorted[j], col) == Key(sorted[i], col)
      invariant i <= j <= |sorted|
      invariant value == sorted[i..j] && sum == Total(value)
      invariant forall k :: i <= k < j ==> Key(sorted[k], col) == Key(sorted[i], col)
    {
      SumByConcat(Num(), value, [sorted[j]]);
      assert [sorted[j]][1..] == [];
      value := value + [sorted[j]];
      sum := sum + sorted[j].num;
      j := j + 1;
    }
  }

  method GroupAndSortBySumOf(data: seq<Warning>, col: Column) returns (groups: seq<Group>)
    ensures groups == Grouped(data, col)
  {
    var sorted := Sort(KeyLe(col), data);
    groups := GroupBy(sorted, col);
    groups := Sort(CountGe(), groups);
  }

  /** The loop over the groups of the sorted data. */
  method GroupBy(sorted: seq<Warning>, col: Column) returns (groups: seq<Group>)
    ensures groups == Runs(sorted, col)
  {
    var i := 0;
    groups := [];
    assert sorted[0..] == sorted && [] + Runs(sorted, col) == Runs(sorted, col);
    while i < |sorted|
      invariant 0 <= i <= |sorted|
      invariant groups + Runs(sorted[i..], col) == Runs(sorted, col)
    {
      var value, sum, j := TakeGroup(sorted, i, col);
      var g := Group(Key(sorted[i], col), value, sum);
      RunsFront(sorted, i, j, g, col);
      Associate(groups, [g], Runs(sorted[j..], col));
      groups := groups + [g];
      i := j;
    }
    assert sorted[|sorted|..] == [] && groups + [] == groups;
  }

  lemma FrontKey(s: seq<Warning>, col: Column)
    ensures s != [] ==> Runs(s, col) != [] && Runs(s, col)[0].key == Key(s[0], col)
  {
  }

  lemma PrependJoins(w: Warning, g: Group, gs: seq<Group>, col: Column)
    requires g.key == Key(w, col)
    ensures Prepend(w, [g] + gs, col) == [Group(g.key, [w] + g.items, w.num + g.count)] + gs
  {
    assert ([g] + gs)[1..] == gs;
  }

  lemma TotalCons(w: Warning, ws: seq<Warning>)
    ensures Total([w] + ws) == w.num + Total(ws)
  {
    assert ([w] + ws)[1..] == ws;
  }

  /** A stretch of equal keys that cannot be extended is the first group. */
  lemma {:induction false} RunsFront(s: seq<Warning>, i: nat, j: nat, g: Group, col: Column)
    requires i < j <= |s| && g == Group(Key(s[i], col), s[i..j], Total(s[i..j]))
    requires forall k :: i <= k < j ==> Key(s[k], col) == Key(s[i], col)
    requires j < |s| ==> Key(s[j], col) != Key(s[i], col)
    ensures Runs(s[i..], col) == [g] + Runs(s[j..], col)
    decreases j - i
  {
    assert s[i..][1..] == s[i + 1..];
    assert s[i..j] == [s[i]] + s[i + 1..j];
    TotalCons(s[i], s[i + 1..j]);
    if i + 1 == j {
      assert s[i..j] == [s[i]] && s[i + 1..j] == [] && g == Group(Key(s[i], col), [s[i]], s[i].num);
      FrontKey(s[j..], col);
      assert Runs(s[i..], col) == Prepend(s[i], Runs(s[j..], col), col);
    } else {
      var rest := Group(Key(s[i + 1], col), s[i + 1..j], Total(s[i + 1..j]));
      RunsFront(s, i + 1, j, rest, col);
      PrependJoins(s[i], rest, Runs(s[j..], col), col);
    }
  }

  function NotAscending(): (Group, Group) -> bool {
    (a: Group, b: Group) => !(StringLe(a.key, b.key) && a.key != b.key)
  }

  ghost predicate Ascending(gs: seq<Group>) {
    NoClash(NotAscending(), gs)
  }

  /** A group is the subsequence of the data that has its key, and its count is that subsequence's sum. */
  ghost predicate Faithful(g: Group, data: seq<Warning>, col: Column) {
    g.items == Filter(HasKey(col, g.key), data) && g.items != [] && g.count == Total(g.items)
  }

  ghost predicate HasGroup(gs: seq<Group>, k: string) {
    exists g :: g in gs && g.key == k
  }

  ghost predicate Covers(gs: seq<Group>, data: seq<Warning>, col: Column) {
    forall w :: w in data ==> HasGroup(gs, Key(w, col))
  }

  lemma PrependGroups(w: Warning, gs: seq<Group>, col: Column, k: string)
    ensures HasGroup(Prepend(w, gs, col), k) <==> k == Key(w, col) || HasGroup(gs, k)
  {
    var after := Prepend(w, gs, col);
    assert after[0] in after && after[0].key == Key(w, col);
    if HasGroup(gs, k) && k != Key(w, col) {
      var g :| g in gs && g.key == k;
      assert g in after;
    }
    if HasGroup(after, k) && k != Key(w, col) {
      var g :| g in after && g.key == k;
      assert g in gs;
    }
  }

  /** The keys of the groups are the keys of the data. */
  lemma {:induction false} RunsKeys(s: seq<Warning>, col: Column)
    ensures Covers(Runs(s, col), s, col)
    ensures forall k :: HasGroup(Runs(s, col), k) ==> exists w :: w in s && Key(w, col) == k
  {
    if s != [] {
      RunsKeys(s[1..], col);
      forall w | w in s ensures HasGroup(Runs(s, col), Key(w, col)) {
        PrependGroups(s[0], Runs(s[1..], col), col, Key(w, col));
        assert w == s[0] || w in s[1..];
      }
      forall k | HasGroup(Runs(s, col), k) ensures exists w :: w in s && Key(w, col) == k {
        PrependGroups(s[0], Runs(s[1..], col), col, k);
        if k == Key(s[0], col) {
          assert s[0] in s;
        } else {
          var w :| w in s[1..] && Key(w, col) == k;
          assert w in s;
        }
      }
    }
  }

  /** In sorted data no later group has a smaller key than the front row. */
  lemma GroupsNotBefore(s: seq<Warning>, col: Column, g: Group)
    requires s != [] && SortedBy(KeyLe(col), s) && g in Runs(s[1..], col)
    ensures StringLe(Key(s[0], col), g.key)
  {
    RunsKeys(s[1..], col);
    assert HasGroup(Runs(s[1..], col), g.key);
    var w :| w in s[1..] && Key(w, col) == g.key;
    var i :| 0 <= i < |s[1..]| && s[1..][i] == w;
    assert KeyLe(col)(s[0], s[i + 1]);
  }

  lemma PrependAscends(w: Warning, gs: seq<Group>, col: Column)
    requires Ascending(gs) && forall g :: g in gs ==> StringLe(Key(w, col), g.key)
    ensures Ascending(Prepend(w, gs, col))
  {
    if gs != [] && gs[0].key == Key(w, col) {
      var g := Group(gs[0].key, [w] + gs[0].items, w.num + gs[0].count);
      forall j | 1 <= j < |gs| ensures !NotAscending()(g, gs[j]) {
        assert !NotAscending()(gs[0], gs[j]);
      }
    } else {
      forall j | 0 <= j < |gs| ensures gs[j].key != Key(w, col) {
        if j > 0 {
          assert !NotAscending()(gs[0], gs[j]);
          if gs[j].key == Key(w, col) {
            assert StringLe(Key(w, col), gs[0].key);
            StringLeAntisymmetric(gs[0].key, gs[j].key);
          }
        }
      }
      forall j | 0 <= j < |gs| ensures StringLe(Key(w, col), gs[j].key) { assert gs[j] in gs; }
    }
  }

  /** Grouping sorted data gives strictly ascending keys. */
  lemma {:induction false} RunsAscend(s: seq<Warning>, col: Column)
    requires SortedBy(KeyLe(col), s)
    ensures Ascending(Runs(s, col))
  {
    if s != [] {
      RunsAscend(s[1..], col);
      forall g | g in Runs(s[1..], col) ensures StringLe(Key(s[0], col), g.key) {
        GroupsNotBefore(s, col, g);
      }
      PrependAscends(s[0], Runs(s[1..], col), col);
    }
  }

  /** A key that no group has does not occur in the data. */
  lemma AbsentKey(s: seq<Warning>, col: Column, k: string)
    requires !HasGroup(Runs(s, col), k)
    ensures Filter(HasKey(col, k), s) == []
  {
    RunsKeys(s, col);
    FilterNone(HasKey(col, k), s);
  }

  /** In sorted data each group is the whole of its key. */
  lemma {:induction false} RunsFaithful(s: seq<Warning>, col: Column)
    requires SortedBy(KeyLe(col), s)
    ensures forall g :: g in Runs(s, col) ==> Faithful(g, s, col)
  {
    if s != [] {
      RunsFaithful(s[1..], col);
      RunsAscend(s, col);
      forall g | g in Runs(s, col) ensures Faithful(g, s, col) {
        var i :| 0 <= i < |Runs(s, col)| && Runs(s, col)[i] == g;
        if i == 0 {
          FirstFaithful(s, col);
        } else {
          assert !NotAscending()(Runs(s, col)[0], g);
          LaterFaithful(s, col, g);
        }
      }
    }
  }

  lemma AscendingNew(k: string, g: Group, gs: seq<Group>)
    requires Ascending([g] + gs) && g.key == k
    ensures !HasGroup(gs, k)
  {
    forall h | h in gs ensures h.key != k {
      var i :| 0 <= i < |gs| && gs[i] == h;
      assert ([g] + gs)[i + 1] == h && !NotAscending()(([g] + gs)[0], ([g] + gs)[i + 1]);
    }
  }

  lemma FirstFaithful(s: seq<Warning>, col: Column)
    requires s != [] && SortedBy(KeyLe(col), s)
    requires forall g :: g in Runs(s[1..], col) ==> Faithful(g, s[1..], col)
    ensures Faithful(Runs(s, col)[0], s, col)
  {
    var w, tail, k := s[0], s[1..], Key(s[0], col);
    var rest := Runs(tail, col);
    assert [w] + tail == s;
    FilterCons(HasKey(col, k), w, tail);
    if rest != [] && rest[0].key == k {
      assert rest[0] in rest;
      TotalCons(w, rest[0].items);
    } else {
      RunsAscend(s, col);
      AscendingNew(k, Group(k, [w], w.num), rest);
      AbsentKey(tail, col, k);
      TotalCons(w, []);
    }
  }

  lemma LaterFaithful(s: seq<Warning>, col: Column, g: Group)
    requires s != [] && g.key != Key(s[0], col) && Faithful(g, s[1..], col)
    ensures Faithful(g, s, col)
  {
    assert [s[0]] + s[1..] == s;
    FilterCons(HasKey(col, g.key), s[0], s[1..]);
  }

  lemma {:induction false} RunsConserve(s: seq<Warning>, col: Column)
    ensures SumBy(Count(), Runs(s, col)) == Total(s)
  {
    if s != [] {
      RunsConserve(s[1..], col);
      var rest := Runs(s[1..], col);
      assert Runs(s, col)[1..] == if rest != [] && rest[0].key == Key(s[0], col) then rest[1..] else rest;
    }
  }

  lemma KeyLeIsPreorder(col: Column)
    ensures TotalPreorder(KeyLe(col))
  {
    StringLeIsTotalOrder();
  }

  function CountIs(c: int): Group -> bool { (g: Group) => g.count == c }

  /** Groups in the final order: descending counts, equal counts by ascending key. */
  ghost predicate InOrder(a: Group, b: Group) {
    a.count > b.count || (a.count == b.count && StringLe(a.key, b.key) && a.key != b.key)
  }

  lemma SortedGroups(gs: seq<Group>, i: nat, j: nat)
    requires Ascending(gs) && i < j < |Sort(CountGe(), gs)|
    ensures InOrder(Sort(CountGe(), gs)[i], Sort(CountGe(), gs)[j])
  {
    var r := Sort(CountGe(), gs);
    SortSorts(CountGe(), gs);
    assert CountGe()(r[i], r[j]);
    if r[i].count == r[j].count {
      var p := CountIs(r[i].count);
      SortStable(CountGe(), p, gs);
      var i', j' := FilterOrder(p, r, i, j);
      AscendingFilter(gs, p);
      assert !NotAscending()(Filter(p, gs)[i'], Filter(p, gs)[j']);
    }
  }

  lemma AscendingFilter(gs: seq<Group>, p: Group -> bool)
    requires Ascending(gs)
    ensures Ascending(Filter(p, gs))
  {
    FilterNoClash(NotAscending(), p, gs);
  }

  /** What grouping promises: each group is exactly the data's subsequence for its key with its sum, every key has a
      group, keys are distinct, counts descend with ties by key, and the counts sum to the data's. */
  lemma GroupedSpec(data: seq<Warning>, col: Column)
    ensures forall g :: g in Grouped(data, col) ==> Faithful(g, data, col)
    ensures Covers(Grouped(data, col), data, col)
    ensures forall i: nat, j: nat :: i < j < |Grouped(data, col)| ==>
              InOrder(Grouped(data, col)[i], Grouped(data, col)[j])
    ensures forall i: nat, j: nat :: i < j < |Grouped(data, col)| ==>
              Grouped(data, col)[i].key != Grouped(data, col)[j].key
    ensures SumBy(Count(), Grouped(data, col)) == Total(data)
  {
    var sorted := Sort(KeyLe(col), data);
    var runs := Runs(sorted, col);
    KeyLeIsPreorder(col);
    SortSorts(KeyLe(col), data);
    SortMembers(KeyLe(col), data);
    RunsAscend(sorted, col);
    RunsFaithful(sorted, col);
    RunsKeys(sorted, col);
    SortMembers(CountGe(), runs);
    RunsConserve(sorted, col);
    SortKeepsSum(CountGe(), Count(), runs);
    SortKeepsSum(KeyLe(col), Num(), data);
    forall g | g in Grouped(data, col) ensures Faithful(g, data, col) {
      assert g in runs;
      StringLeIsTotalOrder();
      SortStable(KeyLe(col), HasKey(col, g.key), data);
    }
    forall i: nat, j: nat | i < j < |Grouped(data, col)|
      ensures InOrder(Grouped(data, col)[i], Grouped(data, col)[j])
      ensures Grouped(data, col)[i].key != Grouped(data, col)[j].key
    {
      SortedGroups(runs, i, j);
      KeysApart(runs, i, j);
    }
  }

  function SameGroupKey(): (Group, Group) -> bool { (a: Group, b: Group) => a.key == b.key }

  lemma KeysApart(gs: seq<Group>, i: nat, j: nat)
    requires Ascending(gs) && i < j < |Sort(CountGe(), gs)|
    ensures Sort(CountGe(), gs)[i].key != Sort(CountGe(), gs)[j].key
  {
    SortNoClash(CountGe(), SameGroupKey(), gs);
    assert !SameGroupKey()(Sort(CountGe(), gs)[i], Sort(CountGe(), gs)[j]);
  }

  // ---------------------------------------------------------------- the groups hold every row once

  function Flat(gs: seq<Group>): seq<Warning> {
    if gs == [] then [] else gs[0].items + Flat(gs[1..])
  }

  function CountIn(w: Warning): Group -> int { (g: Group) => multiset(g.items)[w] }

  lemma {:induction false} FlatRuns(s: seq<Warning>, col: Column)
    ensures Flat(Runs(s, col)) == s
  {
    if s != [] {
      FlatRuns(s[1..], col);
      var rest := Runs(s[1..], col);
      assert s == [s[0]] + s[1..];
      if rest != [] && rest[0].key == Key(s[0], col) {
        assert Runs(s, col)[1..] == rest[1..];
        Associate([s[0]], rest[0].items, Flat(rest[1..]));
      } else {
        assert Runs(s, col)[1..] == rest;
      }
    }
  }

  lemma {:induction false} FlatCounts(gs: seq<Group>, w: Warning)
    ensures multiset(Flat(gs))[w] == SumBy(CountIn(w), gs)
  {
    if gs != [] {
      FlatCounts(gs[1..], w);
    }
  }

  /** The rows of all groups are the data, each as often as it occurs. */
  lemma GroupedHolds(data: seq<Warning>, col: Column)
    ensures multiset(Flat(Grouped(data, col))) == multiset(data)
  {
    var sorted := Sort(KeyLe(col), data);
    var runs := Runs(sorted, col);
    FlatRuns(sorted, col);
    SortPermutes(KeyLe(col), data);
    forall w ensures multiset(Flat(Grouped(data, col)))[w] == multiset(data)[w] {
      FlatCounts(Grouped(data, col), w);
      FlatCounts(runs, w);
      SortKeepsSum(CountGe(), CountIn(w), runs);
    }
  }
}
