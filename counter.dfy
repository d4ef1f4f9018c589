/**
 * `collections.Counter(all_words)` as the scripts use it: a dictionary from
 * word to number of occurrences whose items come out in the order in which
 * each word first occurred (`list(word_counts.items())`).
 */
module WordCounter {

  datatype Entry = Entry(word: string, count: nat)

  /** `counter[w]`: the count stored for `w`, 0 for a missing word. */
  function CountOf(c: seq<Entry>, w: string): nat {
    if c == [] then 0 else if c[0].word == w then c[0].count else CountOf(c[1..], w)
  }

  /** The words of the counter, `set(counter.keys())`. */
  function KeySet(c: seq<Entry>): set<string> {
    set i | 0 <= i < |c| :: c[i].word
  }

  /** No word has two items. */
  predicate DistinctWords(c: seq<Entry>) {
    forall i, j :: 0 <= i < j < |c| ==> c[i].word != c[j].word
  }

  /** Every item counts at least one occurrence. */
  predicate PositiveCounts(c: seq<Entry>) {
    forall i :: 0 <= i < |c| ==> c[i].count >= 1
  }

  /** `sum(counter.values())`. */
  function Total(c: seq<Entry>): nat {
    if c == [] then 0 else c[0].count + Total(c[1..])
  }

  /** One more occurrence of `w`: its item is incremented, or appended with count 1. */
  function Bump(c: seq<Entry>, w: string): seq<Entry> {
    if c == [] then [Entry(w, 1)]
    else if c[0].word == w then [Entry(w, c[0].count + 1)] + c[1..]
    else [c[0]] + Bump(c[1..], w)
  }

  /** `collections.Counter(ws)`: the occurrences of `ws` tallied left to right. */
  function Tally(ws: seq<string>): seq<Entry> {
    if ws == [] then [] else Bump(Tally(ws[..|ws| - 1]), ws[|ws| - 1])
  }

  lemma {:induction false} BumpCount(c: seq<Entry>, w: string, v: string)
    ensures CountOf(Bump(c, w), v) == CountOf(c, v) + (if v == w then 1 else 0)
  {
    if c != [] && c[0].word != w {
      BumpCount(c[1..], w, v);
    }
  }

  lemma {:induction false} BumpTotal(c: seq<Entry>, w: string)
    ensures Total(Bump(c, w)) == Total(c) + 1
  {
    if c != [] && c[0].word != w {
      BumpTotal(c[1..], w);
    }
  }

  /** The position of the first item of `w`, or `|c|` when there is none. */
  function FindWord(c: seq<Entry>, w: string): (k: nat)
    ensures k <= |c| && (k < |c| ==> c[k].word == w)
    ensures forall j :: 0 <= j < k ==> c[j].word != w
  {
    if c == [] then 0 else if c[0].word == w then 0 else FindWord(c[1..], w) + 1
  }

  /** `Bump` increments the first item of `w` in place, or appends a new item when there is none. */
  lemma {:induction false} BumpAt(c: seq<Entry>, w: string)
    ensures var k := FindWord(c, w);
      Bump(c, w) == if k < |c| then c[..k] + [Entry(w, c[k].count + 1)] + c[k + 1..] else c + [Entry(w, 1)]
  {
    if c != [] && c[0].word != w {
      BumpAt(c[1..], w);
      assert c == [c[0]] + c[1..];
    }
  }

  lemma BumpShape(c: seq<Entry>, w: string)
    requires DistinctWords(c) && PositiveCounts(c)
    ensures DistinctWords(Bump(c, w)) && PositiveCounts(Bump(c, w))
    ensures KeySet(Bump(c, w)) == KeySet(c) + {w}
  {
    BumpAt(c, w);
    var k := FindWord(c, w);
    if k < |c| {
      IncrementShape(c, k, Bump(c, w));
    } else {
      AppendShape(c, w, Bump(c, w));
    }
  }

  /** Incrementing the count of one item keeps the words and the positive counts. */
  lemma IncrementShape(c: seq<Entry>, k: nat, r: seq<Entry>)
    requires DistinctWords(c) && PositiveCounts(c) && k < |c|
    requires r == c[..k] + [Entry(c[k].word, c[k].count + 1)] + c[k + 1..]
    ensures DistinctWords(r) && PositiveCounts(r) && KeySet(r) == KeySet(c) + {c[k].word}
  {
    assert |r| == |c|;
    forall i | 0 <= i < |r| ensures r[i].word == c[i].word && r[i].count >= 1 {
      if i != k {
        assert r[i] == c[i];
      }
    }
    assert KeySet(r) == KeySet(c);
  }

  /** Appending an item for a new word with count 1 keeps the words distinct and adds the word. */
  lemma AppendShape(c: seq<Entry>, w: string, r: seq<Entry>)
    requires DistinctWords(c) && PositiveCounts(c)
    requires forall j :: 0 <= j < |c| ==> c[j].word != w
    requires r == c + [Entry(w, 1)]
    ensures DistinctWords(r) && PositiveCounts(r) && KeySet(r) == KeySet(c) + {w}
  {
    assert forall i :: 0 <= i < |c| ==> r[i] == c[i];
    assert r[|c|] == Entry(w, 1);
    forall x | x in KeySet(r) ensures x in KeySet(c) + {w} {
      var i :| 0 <= i < |r| && r[i].word == x;
    }
    assert w == r[|c|].word;
  }

  /** The count of every word is its number of occurrences. */
  lemma {:induction false} TallyCounts(ws: seq<string>, w: string)
    ensures CountOf(Tally(ws), w) == multiset(ws)[w]
  {
    if ws != [] {
      var init := ws[..|ws| - 1];
      TallyCounts(init, w);
      BumpCount(Tally(init), ws[|ws| - 1], w);
      assert ws == init + [ws[|ws| - 1]];
    }
  }

  /** The counts add up to the number of words tallied. */
  lemma {:induction false} TallyTotal(ws: seq<string>)
    ensures Total(Tally(ws)) == |ws|
  {
    if ws != [] {
      TallyTotal(ws[..|ws| - 1]);
      BumpTotal(Tally(ws[..|ws| - 1]), ws[|ws| - 1]);
    }
  }

  /**
   * One item per distinct word, each with a positive count; in particular
   * the counter is empty (falsy) exactly when no word was tallied.
   */
  lemma {:induction false} TallyShape(ws: seq<string>)
    ensures DistinctWords(Tally(ws)) && PositiveCounts(Tally(ws))
    ensures KeySet(Tally(ws)) == set w | w in ws
    ensures Tally(ws) == [] <==> ws == []
  {
    if ws != [] {
      var init := ws[..|ws| - 1];
      TallyShape(init);
      BumpShape(Tally(init), ws[|ws| - 1]);
      assert ws == init + [ws[|ws| - 1]];
      assert (set w | w in ws) == (set w | w in init) + {ws[|ws| - 1]};
    }
  }

  /** Reordering the words changes no count (the counter is a function of the multiset). */
  lemma TallyOrderInsensitive(ws: seq<string>, vs: seq<string>, w: string)
    requires multiset(ws) == multiset(vs)
    ensures CountOf(Tally(ws), w) == CountOf(Tally(vs), w)
  {
    TallyCounts(ws, w);
    TallyCounts(vs, w);
  }
}
