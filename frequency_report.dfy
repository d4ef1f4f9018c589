/**
 * The frequency summary of the word-cloud script's `main`: the counter's
 * items sorted by count (highest first, ties in insertion order), the five
 * items around the middle of that list, and five low-frequency items that
 * prefer words seen more than once.
 */
module FrequencyReport {
  import opened Text
  import opened WordCounter
  import opened TopicWords

  function Min(a: int, b: int): int {
    if a <= b then a else b
  }

  // ----- all_words_sorted.sort(key=lambda x: x[1], reverse=True) -----

  /** Places `e` before the first item whose count is at most its own. */
  function Insert(e: Entry, s: seq<Entry>): seq<Entry> {
    if s == [] || e.count >= s[0].count then [e] + s else [s[0]] + Insert(e, s[1..])
  }

  /**
   * The list sorted by count, highest first. Python's sort is stable also
   * with `reverse=True`, so items of equal count keep their order.
   */
  function SortByCount(c: seq<Entry>): seq<Entry> {
    if c == [] then [] else Insert(c[0], SortByCount(c[1..]))
  }

  /** Non-increasing counts. */
  predicate Descending(s: seq<Entry>) {
    forall i, j :: 0 <= i < j < |s| ==> s[i].count >= s[j].count
  }

  /** The items of count `v`, in their order in `s`. */
  function WithCount(s: seq<Entry>, v: nat): seq<Entry> {
    if s == [] then [] else (if s[0].count == v then [s[0]] else []) + WithCount(s[1..], v)
  }

  lemma WithCountCons(x: Entry, t: seq<Entry>, v: nat)
    ensures WithCount([x] + t, v) == (if x.count == v then [x] else []) + WithCount(t, v)
  {
    assert ([x] + t)[1..] == t;
  }

  lemma {:induction false} InsertPerm(e: Entry, s: seq<Entry>)
    ensures multiset(Insert(e, s)) == multiset(s) + multiset{e}
  {
    if s != [] && e.count < s[0].count {
      InsertPerm(e, s[1..]);
      assert s == [s[0]] + s[1..];
    }
  }

  lemma {:induction false} InsertDescending(e: Entry, s: seq<Entry>)
    requires Descending(s)
    ensures Descending(Insert(e, s))
  {
    if s != [] && e.count < s[0].count {
      var t := s[1..];
      InsertDescending(e, t);
      forall y | y in t ensures y.count <= s[0].count {
        var j :| 0 <= j < |t| && t[j] == y;
        assert y == s[j + 1];
      }
      InsertBelow(e, t, s[0]);
      ConsDescending(s[0], Insert(e, t));
    }
  }

  /** Inserting an item below `x` into items below `x` keeps every item below `x`. */
  lemma InsertBelow(e: Entry, t: seq<Entry>, x: Entry)
    requires e.count <= x.count && forall y :: y in t ==> y.count <= x.count
    ensures forall y :: y in Insert(e, t) ==> y.count <= x.count
  {
    InsertPerm(e, t);
    forall y | y in Insert(e, t) ensures y.count <= x.count {
      assert y in multiset(Insert(e, t));
    }
  }

  /** A descending list stays descending behind a head that no item exceeds. */
  lemma ConsDescending(x: Entry, r: seq<Entry>)
    requires Descending(r) && forall y :: y in r ==> y.count <= x.count
    ensures Descending([x] + r)
  {
    var xr := [x] + r;
    forall i, j | 0 <= i < j < |xr| ensures xr[i].count >= xr[j].count {
      assert xr[j] == r[j - 1];
      if i > 0 {
        assert xr[i] == r[i - 1];
      }
    }
  }

  /** `Insert` passes over items of count above `e.count` only, so it never reorders equal counts. */
  lemma {:induction false} InsertStable(e: Entry, s: seq<Entry>, v: nat)
    ensures WithCount(Insert(e, s), v) == (if e.count == v then [e] else []) + WithCount(s, v)
  {
    if s == [] || e.count >= s[0].count {
      WithCountCons(e, s, v);
    } else {
      var t := s[1..];
      assert s == [s[0]] + t;
      InsertStable(e, t, v);
      WithCountCons(s[0], Insert(e, t), v);
      WithCountCons(s[0], t, v);
      var x := if s[0].count == v then [s[0]] else [];
      var y := if e.count == v then [e] else [];
      assert x == [] || y == [];
      assert x + (y + WithCount(t, v)) == y + (x + WithCount(t, v));
    }
  }

  /**
   * The sorted list is a permutation of the items, its counts never
   * increase, and for every count the items of that count keep their order.
   */
  lemma {:induction false} SortSpec(c: seq<Entry>, v: nat)
    ensures multiset(SortByCount(c)) == multiset(c)
    ensures Descending(SortByCount(c))
    ensures WithCount(SortByCount(c), v) == WithCount(c, v)
  {
    if c != [] {
      SortSpec(c[1..], v);
      InsertPerm(c[0], SortByCount(c[1..]));
      InsertDescending(c[0], SortByCount(c[1..]));
      InsertStable(c[0], SortByCount(c[1..]), v);
      assert c == [c[0]] + c[1..];
      WithCountCons(c[0], c[1..], v);
    }
  }

  // ----- the middle five -----

  function Clamp(x: int, n: nat): nat {
    if x < 0 then 0 else if x > n then n else x
  }

  /** Indices `total // 2 - 2` up to `total // 2 + 2` that lie in `[0, total)`. */
  function Window(sorted: seq<Entry>): seq<Entry> {
    var mid := |sorted| / 2 - 2;
    sorted[Clamp(mid, |sorted|)..Clamp(mid + 5, |sorted|)]
  }

  /** `for i in range(mid_index, mid_index + 5): if 0 <= i < total_words: …` */
  method MiddleWindow(sorted: seq<Entry>) returns (window: seq<Entry>)
    ensures window == Window(sorted)
  {
    var total := |sorted|;
    var midIndex := total / 2 - 2;
    window := [];
    for i := midIndex to midIndex + 5
      invariant window == sorted[Clamp(midIndex, total)..Clamp(i, total)]
    {
      if 0 <= i < total {
        window := window + [sorted[i]];
      }
    }
  }

  /** The window holds `min(5, total)` consecutive items and, for a non-empty list, the middle one. */
  lemma WindowShape(sorted: seq<Entry>)
    ensures |Window(sorted)| == Min(5, |sorted|)
    ensures |sorted| > 0 ==> sorted[|sorted| / 2] in Window(sorted)
  {
    var n := |sorted|;
    var lo, hi := Clamp(n / 2 - 2, n), Clamp(n / 2 + 3, n);
    if n > 0 {
      assert sorted[n / 2] == Window(sorted)[n / 2 - lo];
    }
  }

  // ----- the five low-frequency words -----

  function Reverse(s: seq<Entry>): (r: seq<Entry>)
    ensures |r| == |s| && forall i :: 0 <= i < |s| ==> r[i] == s[|s| - 1 - i]
  {
    if s == [] then [] else Reverse(s[1..]) + [s[0]]
  }

  /**
   * One of the two breaking loops over `reversed(all_words_sorted)`, from
   * `rs` on with `acc` collected so far: the first (`!ones`) takes items of
   * count above 1, the second (`ones`) items of count 1 not yet taken; both
   * stop once five items are collected.
   */
  function Fill(rs: seq<Entry>, acc: seq<Entry>, ones: bool): seq<Entry>
    decreases |rs|
  {
    if rs == [] || |acc| >= 5 then acc
    else
      var e := rs[0];
      var take := if ones then e.count == 1 && e !in acc else e.count > 1;
      Fill(rs[1..], if take then acc + [e] else acc, ones)
  }

  /** `min_words` for the sorted items. */
  function LowWords(sorted: seq<Entry>): seq<Entry> {
    var rev := Reverse(sorted);
    var first := Fill(rev, [], false);
    if |first| < 5 then Fill(rev, first, true) else first
  }

  /** The two loops that build `min_words`. */
  method MinWords(sorted: seq<Entry>) returns (minWords: seq<Entry>)
    ensures minWords == LowWords(sorted)
  {
    var n := |sorted|;
    ghost var rev := Reverse(sorted);
    ghost var first := Fill(rev, [], false);
    minWords := [];
    for k := 0 to n
      invariant |minWords| < 5
      invariant Fill(rev[k..], minWords, false) == first
    {
      var e := sorted[n - 1 - k];
      assert rev[k..][0] == e && rev[k..][1..] == rev[k + 1..];
      if e.count > 1 {
        minWords := minWords + [e];
      }
      if |minWords| >= 5 {
        break;
      }
    }
    if |minWords| < 5 {
      ghost var second := Fill(rev, first, true);
      for k := 0 to n
        invariant |minWords| < 5
        invariant Fill(rev[k..], minWords, true) == second
      {
        var e := sorted[n - 1 - k];
        assert rev[k..][0] == e && rev[k..][1..] == rev[k + 1..];
        if e.count == 1 && e !in minWords {
          minWords := minWords + [e];
        }
        if |minWords| >= 5 {
          break;
        }
      }
    }
  }

  function Many(s: seq<Entry>): seq<Entry> {
    if s == [] then [] else (if s[0].count > 1 then [s[0]] else []) + Many(s[1..])
  }

  function Ones(s: seq<Entry>): seq<Entry> {
    if s == [] then [] else (if s[0].count == 1 then [s[0]] else []) + Ones(s[1..])
  }

  function Take(s: seq<Entry>, n: int): seq<Entry> {
    s[..Clamp(n, |s|)]
  }

  lemma {:induction false} ManyIn(s: seq<Entry>)
    ensures forall x :: x in Many(s) ==> x in s && x.count > 1
  {
    if s != [] {
      ManyIn(s[1..]);
    }
  }

  lemma {:induction false} OnesIn(s: seq<Entry>)
    ensures forall x :: x in Ones(s) ==> x in s && x.count == 1
  {
    if s != [] {
      OnesIn(s[1..]);
    }
  }

  /** The first loop takes the first five items of count above 1. */
  lemma {:induction false} FillMany(rs: seq<Entry>, acc: seq<Entry>)
    requires |acc| <= 5
    ensures Fill(rs, acc, false) == acc + Take(Many(rs), 5 - |acc|)
  {
    if rs == [] || |acc| == 5 {
      assert Take(Many(rs), 5 - |acc|) == [];
    } else {
      var e, t := rs[0], rs[1..];
      if e.count > 1 {
        FillMany(t, acc + [e]);
        assert Many(rs) == [e] + Many(t);
        TakeCons(e, Many(t), 5 - |acc|);
        assert (acc + [e]) + Take(Many(t), 4 - |acc|) == acc + ([e] + Take(Many(t), 4 - |acc|));
      } else {
        FillMany(t, acc);
        assert Many(rs) == Many(t);
      }
    }
  }

  lemma TakeCons(e: Entry, s: seq<Entry>, n: int)
    requires n >= 1
    ensures Take([e] + s, n) == [e] + Take(s, n - 1)
  {
    assert Clamp(n, |s| + 1) == Clamp(n - 1, |s|) + 1;
  }

  /** No item occurs twice. */
  predicate Distinct(s: seq<Entry>) {
    forall i, j :: 0 <= i < j < |s| ==> s[i] != s[j]
  }

  /**
   * With distinct items and no item of count 1 taken yet, the `not in`
   * test never fires: the second loop takes the first items of count 1.
   */
  lemma {:induction false} FillOnes(rs: seq<Entry>, acc: seq<Entry>)
    requires |acc| <= 5 && Distinct(rs)
    requires forall x :: x in acc && x in rs ==> x.count != 1
    ensures Fill(rs, acc, true) == acc + Take(Ones(rs), 5 - |acc|)
  {
    if rs == [] || |acc| == 5 {
      assert Take(Ones(rs), 5 - |acc|) == [];
    } else {
      var e, t := rs[0], rs[1..];
      assert Distinct(t);
      assert forall x :: x in t ==> x in rs && x != e;
      if e.count == 1 {
        assert e !in acc;
        FillOnes(t, acc + [e]);
        assert Ones(rs) == [e] + Ones(t);
        TakeCons(e, Ones(t), 5 - |acc|);
        assert (acc + [e]) + Take(Ones(t), 4 - |acc|) == acc + ([e] + Take(Ones(t), 4 - |acc|));
      } else {
        FillOnes(t, acc);
        assert Ones(rs) == Ones(t);
      }
    }
  }

  lemma {:induction false} SplitCounts(s: seq<Entry>)
    requires PositiveCounts(s)
    ensures |Many(s)| + |Ones(s)| == |s|
  {
    if s != [] {
      SplitCounts(s[1..]);
    }
  }

  lemma {:induction false} FilterDistinct(s: seq<Entry>)
    requires DistinctWords(s)
    ensures DistinctWords(Many(s)) && DistinctWords(Ones(s))
  {
    if s != [] {
      var t := s[1..];
      FilterDistinct(t);
      ManyIn(t);
      OnesIn(t);
      assert forall x :: x in t ==> x.word != s[0].word;
      WordsOfCons(s[0], Many(t));
      WordsOfCons(s[0], Ones(t));
    }
  }

  lemma WordsOfCons(x: Entry, t: seq<Entry>)
    requires DistinctWords(t) && forall y :: y in t ==> y.word != x.word
    ensures DistinctWords([x] + t)
  {
    var r := [x] + t;
    forall i, j | 0 <= i < j < |r| ensures r[i].word != r[j].word {
      assert r[j] == t[j - 1];
      if i > 0 {
        assert r[i] == t[i - 1];
      }
    }
  }

  lemma ReverseShape(s: seq<Entry>)
    ensures DistinctWords(s) ==> DistinctWords(Reverse(s))
    ensures PositiveCounts(s) ==> PositiveCounts(Reverse(s))
    ensures forall x :: x in Reverse(s) <==> x in s
  {
    var r := Reverse(s);
    forall x | x in s ensures x in r {
      var i :| 0 <= i < |s| && s[i] == x;
      assert r[|s| - 1 - i] == x;
    }
  }

  lemma ReverseDistinct(sorted: seq<Entry>)
    requires DistinctWords(sorted)
    ensures DistinctWords(Reverse(sorted)) && Distinct(Reverse(sorted))
  {
    ReverseShape(sorted);
    var rev := Reverse(sorted);
    forall i, j | 0 <= i < j < |rev| ensures rev[i] != rev[j] {
      assert rev[i].word != rev[j].word;
    }
  }

  /**
   * For the items of a counter (distinct words), `min_words` is up to five
   * items of count above 1 taken from the low end, then items of count 1
   * from the low end until there are five.
   */
  lemma LowWordsForm(sorted: seq<Entry>, rev: seq<Entry>)
    requires DistinctWords(sorted) && rev == Reverse(sorted)
    ensures LowWords(sorted) == Take(Many(rev), 5) + Take(Ones(rev), 5 - Min(5, |Many(rev)|))
  {
    ReverseDistinct(sorted);
    LowWordsOf(sorted, rev);
  }

  /** `LowWordsForm` once the items of `rev` are known to be distinct. */
  lemma LowWordsOf(sorted: seq<Entry>, rev: seq<Entry>)
    requires rev == Reverse(sorted) && Distinct(rev)
    ensures LowWords(sorted) == Take(Many(rev), 5) + Take(Ones(rev), 5 - Min(5, |Many(rev)|))
  {
    var first, many, ones := Fill(rev, [], false), Many(rev), Ones(rev);
    assert LowWords(sorted) == if |first| < 5 then Fill(rev, first, true) else first;
    FillBoth(rev, first, many, ones);
  }

  /** The two loops over distinct items `rev`, the second run only when the first took fewer than five. */
  lemma FillBoth(rev: seq<Entry>, first: seq<Entry>, many: seq<Entry>, ones: seq<Entry>)
    requires Distinct(rev) && first == Fill(rev, [], false) && many == Many(rev) && ones == Ones(rev)
    ensures (if |first| < 5 then Fill(rev, first, true) else first) == Take(many, 5) + Take(ones, 5 - Min(5, |many|))
  {
    FillMany(rev, []);
    var m := Take(many, 5);
    assert first == m;
    var n := Min(5, |many|);
    assert |m| == n;
    if n < 5 {
      FirstNotOne(rev, m);
      FillOnes(rev, m);
    } else {
      assert Take(ones, 5 - n) == [];
      assert m + [] == m;
    }
  }

  /** The items the first loop took have counts above 1. */
  lemma FirstNotOne(rev: seq<Entry>, m: seq<Entry>)
    requires m == Take(Many(rev), 5)
    ensures forall x :: x in m && x in rev ==> x.count != 1
  {
    ManyIn(rev);
    forall x | x in m ensures x in Many(rev) {
    }
  }

  /** With positive counts, `min_words` has `min(5, total)` items. */
  lemma LowWordsLength(sorted: seq<Entry>)
    requires DistinctWords(sorted) && PositiveCounts(sorted)
    ensures |LowWords(sorted)| == Min(5, |sorted|)
  {
    var rev := Reverse(sorted);
    LowWordsForm(sorted, rev);
    ReverseShape(sorted);
    SplitCounts(rev);
  }

  /** No word is listed twice in `min_words`. */
  lemma LowWordsDistinct(sorted: seq<Entry>)
    requires DistinctWords(sorted)
    ensures DistinctWords(LowWords(sorted))
  {
    var rev := Reverse(sorted);
    LowWordsForm(sorted, rev);
    ReverseShape(sorted);
    LowPartsDistinct(rev);
  }

  /** The two parts of `min_words`, taken from distinct words, list no word twice together. */
  lemma LowPartsDistinct(rev: seq<Entry>)
    requires DistinctWords(rev)
    ensures DistinctWords(Take(Many(rev), 5) + Take(Ones(rev), 5 - Min(5, |Many(rev)|)))
  {
    var first := Take(Many(rev), 5);
    var second := Take(Ones(rev), 5 - Min(5, |Many(rev)|));
    LowParts(rev, first, second);
    AppendDistinct(first, second);
  }

  /** Both parts of `min_words` list distinct words, and no word is in both. */
  lemma LowParts(rev: seq<Entry>, first: seq<Entry>, second: seq<Entry>)
    requires DistinctWords(rev)
    requires first == Take(Many(rev), 5) && second == Take(Ones(rev), 5 - Min(5, |Many(rev)|))
    ensures DistinctWords(first) && DistinctWords(second)
    ensures forall i, j :: 0 <= i < |first| && 0 <= j < |second| ==> first[i].word != second[j].word
  {
    FilterDistinct(rev);
    forall i, j | 0 <= i < |first| && 0 <= j < |second| ensures first[i].word != second[j].word {
      CrossWords(rev, first, second, i, j);
    }
  }

  lemma AppendDistinct(a: seq<Entry>, b: seq<Entry>)
    requires DistinctWords(a) && DistinctWords(b)
    requires forall i, j :: 0 <= i < |a| && 0 <= j < |b| ==> a[i].word != b[j].word
    ensures DistinctWords(a + b)
  {
    var r := a + b;
    forall i, j | 0 <= i < j < |r| ensures r[i].word != r[j].word {
      if j < |a| {
        assert r[i] == a[i] && r[j] == a[j];
      } else if i >= |a| {
        assert r[i] == b[i - |a|] && r[j] == b[j - |a|];
      } else {
        assert r[i] == a[i] && r[j] == b[j - |a|];
      }
    }
  }

  lemma CrossWords(rev: seq<Entry>, first: seq<Entry>, second: seq<Entry>, i: nat, j: nat)
    requires DistinctWords(rev)
    requires i < |first| && j < |second|
    requires first == Take(Many(rev), 5) && second == Take(Ones(rev), 5 - Min(5, |Many(rev)|))
    ensures first[i].word != second[j].word
  {
    ManyIn(rev);
    OnesIn(rev);
    assert first[i] == Many(rev)[i] && second[j] == Ones(rev)[j];
    assert first[i] in Many(rev) && second[j] in Ones(rev);
    var a :| 0 <= a < |rev| && rev[a] == first[i];
    var b :| 0 <= b < |rev| && rev[b] == second[j];
    assert a != b;
  }

  /** Non-decreasing counts. */
  predicate Ascending(s: seq<Entry>) {
    forall i, j :: 0 <= i < j < |s| ==> s[i].count <= s[j].count
  }

  lemma {:induction false} ManyAscending(s: seq<Entry>)
    requires Ascending(s)
    ensures Ascending(Many(s))
  {
    if s != [] {
      var t := s[1..];
      ManyAscending(t);
      ManyIn(t);
      if s[0].count > 1 {
        var m := Many(s);
        assert m == [s[0]] + Many(t);
        forall j | 1 <= j < |m| ensures s[0].count <= m[j].count {
          assert m[j] == Many(t)[j - 1];
          assert m[j] in t;
        }
      }
    }
  }

  /**
   * Over a list sorted highest first, the items of count above 1 are met
   * from the lowest count up: `min_words` starts with the smallest counts
   * above 1.
   */
  lemma LowEndFirst(sorted: seq<Entry>)
    requires Descending(sorted)
    ensures Ascending(Many(Reverse(sorted)))
  {
    var rev := Reverse(sorted);
    assert Ascending(rev) by {
      forall i, j | 0 <= i < j < |rev| ensures rev[i].count <= rev[j].count {
        assert rev[i] == sorted[|sorted| - 1 - i] && rev[j] == sorted[|sorted| - 1 - j];
      }
    }
    ManyAscending(rev);
  }

  // ----- word_counts.most_common(5) -----

  /**
   * `Counter.most_common(n)`: `heapq.nlargest(n, items, key=count)`, which
   * Python defines as `sorted(items, key=count, reverse=True)[:n]`, so
   * equal counts come in first-occurrence order.
   */
  function MostCommon(counts: seq<Entry>, n: nat): seq<Entry> {
    Take(SortByCount(counts), n)
  }

  /**
   * The top five are `min(5, distinct words)` items of the counter, highest
   * count first, and no item left out has a higher count than one chosen.
   */
  lemma TopFive(counts: seq<Entry>)
    ensures var top := MostCommon(counts, 5);
      |top| == Min(5, |counts|) && multiset(top) <= multiset(counts) && Descending(top)
      && forall x, y :: x in top && y in multiset(counts) - multiset(top) ==> y.count <= x.count
  {
    var sorted := SortByCount(counts);
    SortSpec(counts, 0);
    assert |sorted| == |counts| by {
      assert |multiset(sorted)| == |multiset(counts)|;
    }
    PrefixOfSorted(counts, sorted, Clamp(5, |sorted|));
  }

  /** A prefix of a descending permutation of `counts` holds counts no lower than those left out. */
  lemma PrefixOfSorted(counts: seq<Entry>, sorted: seq<Entry>, k: nat)
    requires multiset(sorted) == multiset(counts) && Descending(sorted) && k <= |sorted|
    ensures var top := sorted[..k];
      multiset(top) <= multiset(counts) && Descending(top)
      && forall x, y :: x in top && y in multiset(counts) - multiset(top) ==> y.count <= x.count
  {
    var top, rest := sorted[..k], sorted[k..];
    assert sorted == top + rest;
    assert multiset(counts) == multiset(top) + multiset(rest);
    forall x, y | x in top && y in multiset(counts) - multiset(top) ensures y.count <= x.count {
      assert y in multiset(rest);
      var i :| 0 <= i < k && top[i] == x;
      var j :| 0 <= j < |rest| && rest[j] == y;
      assert sorted[i] == x && sorted[k + j] == y;
    }
  }

  // ----- main -----

  /** How `main` ends: an early exit, or the summary it prints. */
  datatype Report =
    | NoRows
    | NoWords
    | Summary(counts: seq<Entry>, top: seq<Entry>, sorted: seq<Entry>, middle: seq<Entry>, lowest: seq<Entry>)

  /**
   * `main` without the database, the CSV file, the printing and the image:
   * no rows or no words stop it early; otherwise it counts, takes the top
   * five, sorts and selects the middle and the low-frequency words.
   */
  method RunReport(rows: seq<Field>) returns (r: Report)
    ensures rows == [] ==> r == NoRows
    ensures rows != [] && AllWords(rows) == [] ==> r == NoWords
    ensures rows != [] && AllWords(rows) != [] ==>
      var counts := Tally(AllWords(rows));
      var sorted := SortByCount(counts);
      r == Summary(counts, MostCommon(counts, 5), sorted, Window(sorted), LowWords(sorted))
  {
    if rows == [] {
      return NoRows;
    }
    var allWords, wordCounts := ProcessTopicWords(rows);
    TallyShape(allWords);
    if wordCounts == [] {
      return NoWords;
    }
    var top := MostCommon(wordCounts, 5);
    var sorted := SortByCount(wordCounts);
    var middle := MiddleWindow(sorted);
    var lowest := MinWords(sorted);
    r := Summary(wordCounts, top, sorted, middle, lowest);
  }

  /**
   * A summary sorts one item per distinct word, highest count first, and
   * both selections hold `min(5, distinct words)` items, the low ones with
   * no word twice.
   */
  lemma SummaryShape(rows: seq<Field>)
    requires AllWords(rows) != []
    ensures var counts := Tally(AllWords(rows));
      var sorted := SortByCount(counts);
      multiset(sorted) == multiset(counts) && Descending(sorted)
      && |Window(sorted)| == Min(5, |counts|)
      && |LowWords(sorted)| == Min(5, |counts|) && DistinctWords(LowWords(sorted))
      && Ascending(Many(Reverse(sorted)))
  {
    var counts := Tally(AllWords(rows));
    var sorted := SortByCount(counts);
    TallyShape(AllWords(rows));
    SortSpec(counts, 0);
    assert |sorted| == |counts| by {
      assert |multiset(sorted)| == |multiset(counts)|;
    }
    WindowShape(sorted);
    forall i | 0 <= i < |sorted| ensures sorted[i].count >= 1 {
      assert sorted[i] in multiset(counts);
    }
    forall i, j | 0 <= i < j < |sorted| ensures sorted[i].word != sorted[j].word {
      PermutedWords(counts, sorted, i, j);
    }
    LowWordsLength(sorted);
    LowWordsDistinct(sorted);
    LowEndFirst(sorted);
  }

  /** Two positions of a permutation of a list with distinct words hold different words. */
  lemma PermutedWords(c: seq<Entry>, s: seq<Entry>, i: nat, j: nat)
    requires DistinctWords(c) && multiset(s) == multiset(c) && i < j < |s|
    ensures s[i].word != s[j].word
  {
    if s[i].word == s[j].word {
      assert s[i] in multiset(c) && s[j] in multiset(c);
      var a :| 0 <= a < |c| && c[a] == s[i];
      var b :| 0 <= b < |c| && c[b] == s[j];
      DistinctOnce(c, a);
      OccursTwice(s, i, j);
    }
  }

  lemma OccursTwice(s: seq<Entry>, i: nat, j: nat)
    requires i < j < |s| && s[i] == s[j]
    ensures multiset(s)[s[i]] >= 2
  {
    assert s == s[..i] + [s[i]] + s[i + 1..j] + [s[j]] + s[j + 1..];
  }

  /** An item of a list with distinct words occurs once. */
  lemma DistinctOnce(c: seq<Entry>, a: nat)
    requires DistinctWords(c) && a < |c|
    ensures multiset(c)[c[a]] == 1
  {
    assert c == c[..a] + [c[a]] + c[a + 1..];
    var before, after := c[..a], c[a + 1..];
    forall k | 0 <= k < |before| ensures before[k] != c[a] {
      assert before[k] == c[k];
    }
    forall k | 0 <= k < |after| ensures after[k] != c[a] {
      assert after[k] == c[a + 1 + k];
    }
    assert c[a] !in before && c[a] !in after;
  }
}
