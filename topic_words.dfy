/**
 * `process_topic_words`, which the three word-cloud scripts carry in
 * copies that differ only in their debug printing: every topic-word cell is
 * cut into words and the words are counted.
 *
 * A cell that is NULL or blank gives nothing. If the cell holds at least one
 * pair of double quotes (the regular expression `"([^"]*)"`, matched left to
 * right), only the text between each pair is used, split on either comma
 * glyph. Otherwise every double quote is deleted and the text is split on
 * the full-width comma and then on the ASCII comma. In both cases each piece
 * is stripped and kept only when something is left.
 */
module TopicWords {
  import opened Text
  import opened WordCounter

  const Quote: char := '"'

  /** `re.findall(r'"([^"]*)"', s)`: the text between the 1st and 2nd quote, the 3rd and 4th, … */
  function Quoted(s: string): (r: seq<string>)
    ensures forall k :: 0 <= k < |r| ==> Quote !in r[k]
    decreases |s|
  {
    match IndexOf(s, Quote)
    case None => []
    case Some(i) =>
      var rest := s[i + 1..];
      match IndexOf(rest, Quote)
      case None => []
      case Some(j) => [rest[..j]] + Quoted(rest[j + 1..])
  }

  /** A pair of quotes around quote-free text `m` yields `m`, and the search goes on after the closing quote. */
  lemma QuotedPair(a: string, m: string, b: string)
    requires Quote !in a && Quote !in m
    ensures Quoted(a + [Quote] + m + [Quote] + b) == [m] + Quoted(b)
  {
    var s := a + [Quote] + m + [Quote] + b;
    assert s == a + [Quote] + (m + [Quote] + b);
    IndexAfter(a, Quote, m + [Quote] + b);
    var rest := s[|a| + 1..];
    assert rest == m + [Quote] + b;
    IndexAfter(m, Quote, b);
    assert rest[..|m|] == m && rest[|m| + 1..] == b;
  }

  /** A lone quote opens no segment: text with one quote yields nothing. */
  lemma QuotedLone(a: string, b: string)
    requires Quote !in a && Quote !in b
    ensures Quoted(a + [Quote] + b) == []
  {
    IndexAfter(a, Quote, b);
    assert (a + [Quote] + b)[|a| + 1..] == b;
  }

  /** Text without a quote yields nothing. */
  lemma QuotedNone(s: string)
    requires Quote !in s
    ensures Quoted(s) == []
  {
  }

  /** A piece stripped, kept when non-empty (`word = word.strip(); if word: …`). */
  function KeepOne(piece: string): seq<string> {
    var w := Strip(piece);
    if w == [] then [] else [w]
  }

  function Keep(pieces: seq<string>): seq<string> {
    FlatMap(pieces, KeepOne)
  }

  /** The words of one quoted segment: `re.split(r'[,，]', match)`, stripped, non-empty. */
  function SegmentWords(segment: string): seq<string> {
    Keep(Split(segment, Commas))
  }

  /** The words of one non-blank cell. */
  function RowWords(s: string): seq<string> {
    var segments := Quoted(s);
    if segments != [] then FlatMap(segments, SegmentWords)
    else Keep(Split(Remove(s, Quote), Commas))
  }

  /** `row[0] is None or len(row[0].strip()) == 0` */
  predicate IsBlank(f: Field) {
    f.Null? || Strip(f.s) == []
  }

  function FieldWords(f: Field): seq<string> {
    if IsBlank(f) then [] else RowWords(f.s)
  }

  /** `all_words`: the words of every row, in row order. */
  function AllWords(rows: seq<Field>): seq<string> {
    FlatMap(rows, FieldWords)
  }

  /** The words of one piece of the full-width split (`topic.split(',')`, stripped, non-empty). */
  function PieceWords(topic: string): seq<string> {
    Keep(Split(topic, AsciiComma))
  }

  /**
   * The loops of `process_topic_words`, followed by `collections.Counter`.
   * The unquoted branch splits on `，` and then on `,` as the code does; the
   * result is the one-pass split on either glyph that `RowWords` states.
   */
  method ProcessTopicWords(rows: seq<Field>) returns (allWords: seq<string>, wordCounts: seq<Entry>)
    ensures allWords == AllWords(rows)
    ensures wordCounts == Tally(allWords)
  {
    allWords := [];
    for i := 0 to |rows|
      invariant allWords == AllWords(rows[..i])
    {
      FlatMapPrefix(rows, i, FieldWords);
      ghost var before := allWords;
      var row := rows[i];
      if !(row.Null? || |Strip(row.s)| == 0) {
        var topicWords := row.s;
        var matches := Quoted(topicWords);
        if |matches| > 0 {
          allWords := AppendQuoted(allWords, matches);
        } else {
          var topics := Split(Remove(topicWords, Quote), {FullComma});
          allWords := AppendUnquoted(allWords, topics);
          UnquotedSplit(Remove(topicWords, Quote));
        }
      }
    }
    assert rows[..|rows|] == rows;
    wordCounts := Tally(allWords);
  }

  /** The quoted branch: `for match in matches: words = re.split(r'[,，]', match); …` */
  method AppendQuoted(acc: seq<string>, matches: seq<string>) returns (r: seq<string>)
    ensures r == acc + FlatMap(matches, SegmentWords)
  {
    r := acc;
    for j := 0 to |matches|
      invariant r == acc + FlatMap(matches[..j], SegmentWords)
    {
      FlatMapPrefix(matches, j, SegmentWords);
      var words := Split(matches[j], Commas);
      r := AppendWords(r, words);
    }
    assert matches[..|matches|] == matches;
  }

  /** The unquoted branch: `for topic in topics: words = topic.split(','); …` */
  method AppendUnquoted(acc: seq<string>, topics: seq<string>) returns (r: seq<string>)
    ensures r == acc + FlatMap(topics, PieceWords)
  {
    r := acc;
    for j := 0 to |topics|
      invariant r == acc + FlatMap(topics[..j], PieceWords)
    {
      FlatMapPrefix(topics, j, PieceWords);
      var words := Split(topics[j], AsciiComma);
      r := AppendWords(r, words);
    }
    assert topics[..|topics|] == topics;
  }

  /** `for word in words: word = word.strip(); if word: all_words.append(word)` */
  method AppendWords(acc: seq<string>, words: seq<string>) returns (r: seq<string>)
    ensures r == acc + Keep(words)
  {
    r := acc;
    for k := 0 to |words|
      invariant r == acc + Keep(words[..k])
    {
      FlatMapPrefix(words, k, KeepOne);
      var word := Strip(words[k]);
      if |word| > 0 {
        r := r + [word];
      }
    }
    assert words[..|words|] == words;
  }

  /** Splitting on `，` and then on `,` yields the words of a split on either glyph. */
  lemma UnquotedSplit(t: string)
    ensures FlatMap(Split(t, {FullComma}), PieceWords) == Keep(Split(t, Commas))
  {
    var toPieces := (u: string) => Split(u, {','});
    FlatMapFlatMap(Split(t, {FullComma}), toPieces, KeepOne, PieceWords);
    SplitTwice(t, FullComma, ',');
    assert {FullComma, ','} == Commas;
  }

  /** Left-to-right pairing: a cell with `q` double quotes has `q / 2` quoted segments. */
  lemma {:induction false} QuotedCount(s: string)
    ensures |Quoted(s)| == Occurrences(s, Quote) / 2
    decreases |s|
  {
    match IndexOf(s, Quote)
    case None =>
      OccurrencesAbsent(s, Quote);
    case Some(i) =>
      var rest := s[i + 1..];
      assert s == s[..i] + [Quote] + rest;
      OccurrencesAbsent(s[..i], Quote);
      OccurrencesAppend(s[..i] + [Quote], rest, Quote);
      OccurrencesAppend(s[..i], [Quote], Quote);
      match IndexOf(rest, Quote)
      case None =>
        OccurrencesAbsent(rest, Quote);
      case Some(j) =>
        var tail := rest[j + 1..];
        assert rest == rest[..j] + [Quote] + tail;
        OccurrencesAbsent(rest[..j], Quote);
        OccurrencesAppend(rest[..j] + [Quote], tail, Quote);
        OccurrencesAppend(rest[..j], [Quote], Quote);
        QuotedCount(tail);
  }

  lemma {:induction false} OccurrencesAbsent(s: string, c: char)
    requires c !in s
    ensures Occurrences(s, c) == 0
  {
    if s != [] {
      assert s[0] != c;
      assert c !in s[1..];
      OccurrencesAbsent(s[1..], c);
    }
  }

  /** What every emitted word looks like: non-empty, already stripped, free of commas and quotes. */
  predicate CleanWord(w: string) {
    w != [] && Strip(w) == w && Quote !in w && ',' !in w && FullComma !in w
  }

  lemma KeepClean(pieces: seq<string>)
    requires forall i :: 0 <= i < |pieces| ==> Quote !in pieces[i] && ',' !in pieces[i] && FullComma !in pieces[i]
    ensures forall w :: w in Keep(pieces) ==> CleanWord(w)
  {
    forall i, y | 0 <= i < |pieces| && y in KeepOne(pieces[i]) ensures CleanWord(y) {
      StripIdempotent(pieces[i]);
      StripChars(pieces[i], Quote);
      StripChars(pieces[i], ',');
      StripChars(pieces[i], FullComma);
    }
    FlatMapAll(pieces, KeepOne, CleanWord);
  }

  lemma SplitClean(s: string)
    requires Quote !in s
    ensures forall w :: w in Keep(Split(s, Commas)) ==> CleanWord(w)
  {
    var pieces := Split(s, Commas);
    SplitChars(s, Commas, Quote);
    forall i | 0 <= i < |pieces|
      ensures Quote !in pieces[i] && ',' !in pieces[i] && FullComma !in pieces[i]
    {
      assert forall j :: 0 <= j < |pieces[i]| ==> pieces[i][j] !in Commas;
    }
    KeepClean(pieces);
  }

  /** Every word `process_topic_words` emits is stripped, non-empty and contains no comma or quote. */
  lemma AllWordsClean(rows: seq<Field>)
    ensures forall w :: w in AllWords(rows) ==> CleanWord(w)
  {
    forall i, y | 0 <= i < |rows| && y in FieldWords(rows[i]) ensures CleanWord(y) {
      var s := rows[i].s;
      var segments := Quoted(s);
      if segments != [] {
        forall k, z | 0 <= k < |segments| && z in SegmentWords(segments[k]) ensures CleanWord(z) {
          SplitClean(segments[k]);
        }
        FlatMapAll(segments, SegmentWords, CleanWord);
      } else {
        SplitClean(Remove(s, Quote));
      }
    }
    FlatMapAll(rows, FieldWords, CleanWord);
  }

  /** NULL and blank cells contribute no words, wherever they stand. */
  lemma BlankRowsIgnored(before: seq<Field>, row: Field, after: seq<Field>)
    requires IsBlank(row)
    ensures AllWords(before + [row] + after) == AllWords(before + after)
  {
    FlatMapAppend(before + [row], after, FieldWords);
    FlatMapSnoc(before, row, FieldWords);
    FlatMapAppend(before, after, FieldWords);
  }

  /** Reordering the rows permutes the emitted words. */
  lemma {:induction false} AllWordsPermutation(rows: seq<Field>, others: seq<Field>)
    requires multiset(rows) == multiset(others)
    ensures multiset(AllWords(rows)) == multiset(AllWords(others))
    decreases |rows|
  {
    if rows == [] {
      assert |others| == |multiset(others)| == 0;
    } else {
      assert rows == [rows[0]] + rows[1..];
      var k := PickOut(rows[0], rows[1..], others);
      var rest := others[..k] + others[k + 1..];
      AllWordsPermutation(rows[1..], rest);
      assert others == others[..k] + [rows[0]] + others[k + 1..];
      FlatMapRemoved(others[..k], rows[0], others[k + 1..], FieldWords);
    }
  }

  /** An element of `[x] + xs` sits at some index `k` of its permutation `ys`; the rest permute `xs`. */
  lemma PickOut<T>(x: T, xs: seq<T>, ys: seq<T>) returns (k: nat)
    requires multiset([x] + xs) == multiset(ys)
    ensures k < |ys| && ys[k] == x
    ensures multiset(xs) == multiset(ys[..k] + ys[k + 1..])
  {
    assert x in multiset(ys);
    k :| 0 <= k < |ys| && ys[k] == x;
    assert ys == ys[..k] + [x] + ys[k + 1..];
    MultisetMiddle(ys[..k], [x], ys[k + 1..]);
    var m1, m2 := multiset(xs), multiset(ys[..k] + ys[k + 1..]);
    assert multiset([x] + xs) == multiset{x} + m1;
    forall y ensures m1[y] == m2[y] {
      assert (multiset{x} + m1)[y] == (multiset{x} + m2)[y];
    }
  }

  /** Taking the middle part `q` out of `p + q + r` leaves the multiset of `p + r`. */
  lemma MultisetMiddle<U>(p: seq<U>, q: seq<U>, r: seq<U>)
    ensures multiset(p + q + r) == multiset(q) + multiset(p + r)
  {
    var m, n := multiset(p + q + r), multiset(q) + multiset(p + r);
    forall y ensures m[y] == n[y] {
      assert m[y] == multiset(p)[y] + multiset(q)[y] + multiset(r)[y];
    }
  }

  /** Flattening `a + [x] + b` yields the image of `x` plus the flattening of `a + b`. */
  lemma FlatMapRemoved<T, U>(a: seq<T>, x: T, b: seq<T>, f: T -> seq<U>)
    ensures multiset(FlatMap(a + [x] + b, f)) == multiset(f(x)) + multiset(FlatMap(a + b, f))
  {
    FlatMapAround(a, x, b, f);
    FlatMapAppend(a, b, f);
    MultisetMiddle(FlatMap(a, f), f(x), FlatMap(b, f));
  }

  lemma FlatMapAround<T, U>(a: seq<T>, x: T, b: seq<T>, f: T -> seq<U>)
    ensures FlatMap(a + [x] + b, f) == FlatMap(a, f) + f(x) + FlatMap(b, f)
  {
    FlatMapAppend(a + [x], b, f);
    FlatMapSnoc(a, x, f);
  }

  /**
   * `Counter(all_words)[w]` is the number of times `w` was emitted, the
   * counts add up to the number of emitted words, and reordering the rows
   * changes no count.
   */
  lemma WordCountsAreOccurrences(rows: seq<Field>, others: seq<Field>, w: string)
    requires multiset(rows) == multiset(others)
    ensures CountOf(Tally(AllWords(rows)), w) == multiset(AllWords(rows))[w]
    ensures Total(Tally(AllWords(rows))) == |AllWords(rows)|
    ensures CountOf(Tally(AllWords(rows)), w) == CountOf(Tally(AllWords(others)), w)
  {
    TallyCounts(AllWords(rows), w);
    TallyTotal(AllWords(rows));
    AllWordsPermutation(rows, others);
    TallyOrderInsensitive(AllWords(rows), AllWords(others), w);
  }

  /** A cell without quotes is split on both comma glyphs, nothing else. */
  lemma UnquotedRow(s: string)
    requires Quote !in s
    ensures RowWords(s) == Keep(Split(s, Commas))
  {
    match IndexOf(s, Quote) {
      case None =>
    }
    assert Remove(s, Quote) == s by {
      RemoveAbsent(s, Quote);
    }
  }

  lemma {:induction false} RemoveAbsent(s: string, c: char)
    requires c !in s
    ensures Remove(s, c) == s
  {
    if s != [] {
      assert c !in s[1..];
      RemoveAbsent(s[1..], c);
      assert [s[0]] + s[1..] == s;
    }
  }

  /** `""` alone: one empty quoted segment, so no words and no fall-back to the unquoted split. */
  lemma EmptyQuotedSegment(s: string)
    requires Quoted(s) == [[]]
    ensures RowWords(s) == []
  {
    assert Split([], Commas) == [[]];
    assert Keep([[]]) == KeepOne([]) + Keep([]);
    assert FlatMap([[]], SegmentWords) == SegmentWords([]) + FlatMap([], SegmentWords);
  }
}
