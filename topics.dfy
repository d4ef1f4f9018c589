/**
 * The topic routines of the topic cluster visualisation.
 *
 * A cell of the `topic` column such as `"0,3"` lists topic ids;
 * `convert_to_vector` turns it into a 0/1 vector of length `num_topics`
 * (6 by default) with a 1 at every listed id in range. Every token must be
 * an integer literal: `int(t)` raises on anything else, which the model
 * returns as `None`.
 */
module Topics {
  import opened Text
  import opened Batches

  /** The default `num_topics`. */
  const DefaultTopics: int := 6

  predicate IsDigit(c: char) {
    '0' <= c <= '9'
  }

  predicate AllDigits(s: string) {
    forall i :: 0 <= i < |s| ==> IsDigit(s[i])
  }

  /** The value of a string of decimal digits, leading zeros allowed. */
  function DigitsValue(s: string): nat
    requires AllDigits(s)
  {
    if s == [] then 0 else 10 * DigitsValue(s[..|s| - 1]) + (s[|s| - 1] as int - '0' as int)
  }

  /**
   * Python's `int(t)` on a string in base 10: surrounding whitespace is
   * ignored, then an optional `+` or `-` and at least one digit.
   */
  function ParseInt(t: string): Option<int> {
    var u := Strip(t);
    var sign := if u != [] && (u[0] == '-' || u[0] == '+') then u[0] else ' ';
    var digits := if sign == ' ' then u else u[1..];
    if digits == [] || !AllDigits(digits) then None
    else
      var value: int := DigitsValue(digits);
      if sign == '-' then Some(-value) else Some(value)
  }

  /** `str(n)` for a natural number: the printing half of the `int(str(n)) == n` round trip. */
  function ShowNat(n: nat): (r: string)
    ensures r != [] && AllDigits(r)
  {
    var d := ['0' + (n % 10) as char];
    if n < 10 then d else ShowNat(n / 10) + d
  }

  /** `str(n)` */
  function ShowInt(n: int): string {
    if n < 0 then "-" + ShowNat(-n) else ShowNat(n)
  }

  lemma {:induction false} ShowNatValue(n: nat)
    ensures DigitsValue(ShowNat(n)) == n
  {
    var s := ShowNat(n);
    if n >= 10 {
      ShowNatValue(n / 10);
      assert s[..|s| - 1] == ShowNat(n / 10);
    }
  }

  /** A string that starts and ends with a non-space is its own `strip()`. */
  lemma StripUnspaced(s: string)
    requires s != [] && !IsSpace(s[0]) && !IsSpace(s[|s| - 1])
    ensures Strip(s) == s
  {
    assert TrimLeft(s) == s;
  }

  /** `int(str(n)) == n`: every integer survives printing and parsing. */
  lemma ParseShow(n: int)
    ensures ParseInt(ShowInt(n)) == Some(n)
  {
    var s := ShowInt(n);
    var m := if n < 0 then -n else n;
    ShowNatValue(m);
    assert !IsSpace(s[0]) && !IsSpace(s[|s| - 1]);
    StripUnspaced(s);
    if n < 0 {
      assert s[1..] == ShowNat(m);
    }
  }

  /** A token that is blank after stripping is not an integer: `int('')` raises. */
  lemma BlankTokenRejected(t: string)
    requires Strip(t) == []
    ensures ParseInt(t).None?
  {
  }

  /** A token that holds a character other than a digit, a sign or a space is not an integer. */
  lemma StrayCharRejected(t: string, i: nat)
    requires i < |t| && !IsDigit(t[i]) && !IsSpace(t[i]) && t[i] != '-' && t[i] != '+'
    ensures ParseInt(t).None?
  {
    StripSpec(t);
    var u := Strip(t);
    var start := |t| - |TrimLeft(t)|;
    assert start <= i < start + |u|;
    var j := i - start;
    assert u[j] == t[i];
    var sign := if u != [] && (u[0] == '-' || u[0] == '+') then u[0] else ' ';
    var digits := if sign == ' ' then u else u[1..];
    if sign == ' ' {
      assert digits[j] == t[i];
    } else {
      assert j > 0;
      assert digits[j - 1] == t[i];
    }
    assert !AllDigits(digits);
  }

  /** `[int(t) for t in pieces]`, or `None` when some `int(t)` raises. */
  function ParseAll(pieces: seq<string>): Option<seq<int>> {
    if pieces == [] then Some([])
    else match (ParseInt(pieces[0]), ParseAll(pieces[1..]))
      case (Some(x), Some(xs)) => Some([x] + xs)
      case _ => None
  }

  /** The comprehension fails exactly when one token fails, and otherwise parses each token in place. */
  lemma {:induction false} ParseAllSpec(pieces: seq<string>)
    ensures ParseAll(pieces).None? <==> exists i :: 0 <= i < |pieces| && ParseInt(pieces[i]).None?
    ensures ParseAll(pieces).Some? ==>
      |ParseAll(pieces).value| == |pieces|
      && forall i :: 0 <= i < |pieces| ==> ParseInt(pieces[i]) == Some(ParseAll(pieces).value[i])
  {
    if pieces != [] {
      var t := pieces[1..];
      ParseAllSpec(t);
      match (ParseInt(pieces[0]), ParseAll(t)) {
        case (Some(x), Some(xs)) =>
          assert ParseAll(pieces) == Some([x] + xs);
          forall i | 0 <= i < |pieces| ensures ParseInt(pieces[i]) == Some(([x] + xs)[i]) {
            if i > 0 {
              assert pieces[i] == t[i - 1];
            }
          }
        case (None, _) =>
          assert ParseInt(pieces[0]).None?;
        case (Some(x), None) =>
          var i :| 0 <= i < |t| && ParseInt(t[i]).None?;
          assert pieces[i + 1] == t[i];
      }
    }
  }

  /** `[int(t) for t in topics_str.split(',')]` */
  function ParseIds(s: string): Option<seq<int>> {
    ParseAll(Split(s, AsciiComma))
  }

  /** `[0] * n`, which is empty for a negative `n`. */
  function Zeros(n: int): (r: seq<int>)
    ensures |r| == (if n < 0 then 0 else n) && forall k :: 0 <= k < |r| ==> r[k] == 0
  {
    seq(if n < 0 then 0 else n, _ => 0)
  }

  /** The vector with a 1 at every id of `ids` that is a valid index, 0 elsewhere. */
  function MultiHot(ids: seq<int>, n: int): seq<int> {
    seq(if n < 0 then 0 else n, k => if k in ids then 1 else 0)
  }

  /** The result of `convert_to_vector(topics_str, num_topics)`; `None` where `int()` raises. */
  function TopicVector(topicsStr: Field, numTopics: int): Option<seq<int>> {
    match topicsStr
    case Null => Some(Zeros(numTopics))
    case Value(s) =>
      match ParseIds(s)
      case Some(ids) => Some(MultiHot(ids, numTopics))
      case None => None
  }

  /**
   * `convert_to_vector`: the ids are parsed first, so a bad token raises
   * before any entry is set; then each id in range sets its entry to 1.
   */
  method ConvertTopics(topicsStr: Field, numTopics: int) returns (r: Option<seq<int>>)
    ensures r == TopicVector(topicsStr, numTopics)
  {
    if topicsStr.Null? {
      return Some(Zeros(numTopics));
    }
    var parsed := ParseIds(topicsStr.s);
    if parsed.None? {
      return None;
    }
    var topics := parsed.value;
    var len := if numTopics < 0 then 0 else numTopics;
    var vector := new int[len](_ => 0);
    for i := 0 to |topics|
      invariant forall k :: 0 <= k < len ==> vector[k] == if k in topics[..i] then 1 else 0
    {
      var topic := topics[i];
      assert topics[..i + 1] == topics[..i] + [topic];
      if 0 <= topic < numTopics {
        vector[topic] := 1;
      }
    }
    assert topics[..|topics|] == topics;
    assert vector[..] == MultiHot(topics, numTopics);
    return Some(vector[..]);
  }

  /**
   * A parsed label gives a vector of length `num_topics` whose entries are 0
   * or 1, with a 1 at `k` exactly when some id equals `k`; ids below 0 or at
   * least `num_topics` set nothing.
   */
  lemma VectorShape(s: string, numTopics: int)
    requires ParseIds(s).Some?
    ensures var ids := ParseIds(s).value;
      var v := TopicVector(Value(s), numTopics).value;
      |v| == (if numTopics < 0 then 0 else numTopics)
      && (forall k :: 0 <= k < |v| ==> v[k] == 0 || v[k] == 1)
      && (forall k :: 0 <= k < |v| ==> (v[k] == 1 <==> exists i :: 0 <= i < |ids| && ids[i] == k))
      && (forall i :: 0 <= i < |ids| && 0 <= ids[i] < numTopics ==> v[ids[i]] == 1)
  {
    var ids := ParseIds(s).value;
    var v := TopicVector(Value(s), numTopics).value;
    forall k | 0 <= k < |v| ensures v[k] == 1 <==> exists i :: 0 <= i < |ids| && ids[i] == k {
      if k in ids {
        var i :| 0 <= i < |ids| && ids[i] == k;
      }
    }
  }

  /** The ids' order and repetitions do not matter: only the set of ids does. */
  lemma SameIdsSameVector(ids: seq<int>, others: seq<int>, n: int)
    requires forall x :: x in ids <==> x in others
    ensures MultiHot(ids, n) == MultiHot(others, n)
  {
    forall k | 0 <= k < |MultiHot(ids, n)| ensures MultiHot(ids, n)[k] == MultiHot(others, n)[k] {
      assert MultiHot(ids, n)[k] == if k in ids then 1 else 0;
      assert MultiHot(others, n)[k] == if k in others then 1 else 0;
    }
  }

  /** Setting an entry to 1 is idempotent: repeating an id changes nothing. */
  lemma RepeatedId(ids: seq<int>, x: int, n: int)
    requires x in ids
    ensures MultiHot(ids + [x], n) == MultiHot(ids, n)
  {
    SameIdsSameVector(ids + [x], ids, n);
  }

  /** An id outside `[0, num_topics)` is ignored. */
  lemma OutOfRangeIgnored(ids: seq<int>, x: int, n: int)
    requires x < 0 || x >= n
    ensures MultiHot(ids + [x], n) == MultiHot(ids, n)
  {
    var a, b := MultiHot(ids + [x], n), MultiHot(ids, n);
    forall k | 0 <= k < |a| ensures a[k] == b[k] {
      assert k in ids + [x] <==> k in ids;
    }
  }

  /** A NaN cell gives the zero vector of length `num_topics`. */
  lemma NullTopic(numTopics: int)
    ensures TopicVector(Null, numTopics).Some?
    ensures forall k :: 0 <= k < |TopicVector(Null, numTopics).value| ==> TopicVector(Null, numTopics).value[k] == 0
    ensures |TopicVector(Null, numTopics).value| == (if numTopics < 0 then 0 else numTopics)
  {
  }

  /** A label with an empty token raises: the empty label, and a doubled comma. */
  lemma EmptyTokenRaises()
    ensures TopicVector(Value(""), DefaultTopics).None?
    ensures TopicVector(Value("1,,2"), DefaultTopics).None?
  {
    ParseAllSpec(Split("", AsciiComma));
    assert Split("", AsciiComma)[0] == "";
    assert "1,,2" == "1" + [','] + ("" + [','] + "2");
    SplitAfterPiece("1", ',', "" + [','] + "2");
    SplitAfterPiece("", ',', "2");
    var pieces := Split("1,,2", AsciiComma);
    assert pieces[1] == "";
    ParseAllSpec(pieces);
  }

  /** A label written out by `','.join(map(str, ids))` parses back to exactly `ids`. */
  lemma ParseJoined(ids: seq<int>)
    requires |ids| >= 1
    ensures ParseIds(Join(seq(|ids|, i requires 0 <= i < |ids| => ShowInt(ids[i])), ',')) == Some(ids)
  {
    var shown := seq(|ids|, i requires 0 <= i < |ids| => ShowInt(ids[i]));
    forall i, j | 0 <= i < |shown| && 0 <= j < |shown[i]| ensures shown[i][j] != ',' {
      if ids[i] < 0 && j > 0 {
        assert shown[i][j] == ShowNat(-ids[i])[j - 1];
      }
    }
    SplitJoin(shown, ',');
    forall i | 0 <= i < |shown| ensures ParseInt(shown[i]) == Some(ids[i]) {
      ParseShow(ids[i]);
    }
    ParseAllSpec(shown);
    var r := ParseAll(shown).value;
    assert r == ids;
  }

  // ----- save_results_to_db -----

  /** One row of `topic_visualization`. */
  datatype TopicRow = TopicRow(
    originalTopic: string,
    vector: seq<real>,
    umapX: real,
    umapY: real,
    clusterLabel: int)

  const BatchSize: nat := 1000

  /** `str(topics[i]) if not pd.isna(topics[i]) else ""` */
  function TopicText(f: Field): string {
    match f
    case Null => ""
    case Value(s) => s
  }

  /** The six stored dimensions of a topic vector, as floats. */
  function StoredVector(v: seq<int>): seq<real>
    requires |v| >= 6
  {
    seq(6, j requires 0 <= j < 6 => v[j] as real)
  }

  /** The row stored for topic cell `f` with vector `v`, point `p` and cluster `c`. */
  function RowOf(f: Field, v: seq<int>, p: (real, real), c: int): TopicRow
    requires |v| >= 6
  {
    TopicRow(TopicText(f), StoredVector(v), p.0, p.1, c)
  }

  /** `data_to_insert`: one row per topic cell, in input order. */
  method BuildTopicRows(coords: seq<(real, real)>, labels: seq<int>, topics: seq<Field>, vectors: seq<seq<int>>)
    returns (rows: seq<TopicRow>)
    requires |coords| == |topics| && |labels| == |topics| && |vectors| == |topics|
    requires forall i :: 0 <= i < |vectors| ==> |vectors[i]| >= 6
    ensures |rows| == |topics|
    ensures forall i :: 0 <= i < |rows| ==> rows[i] == RowOf(topics[i], vectors[i], coords[i], labels[i])
  {
    rows := [];
    for i := 0 to |topics|
      invariant |rows| == i
      invariant forall j :: 0 <= j < i ==> rows[j] == RowOf(topics[j], vectors[j], coords[j], labels[j])
    {
      var topicStr := if topics[i].Null? then "" else topics[i].s;
      var stored := seq(6, j requires 0 <= j < 6 => vectors[i][j] as real);
      rows := rows + [TopicRow(topicStr, stored, coords[i].0, coords[i].1, labels[i])];
    }
  }

  /**
   * `save_results_to_db` without the connection: the rows are built and
   * written in batches of 1000 until one fails.
   */
  method SaveTopicResults(coords: seq<(real, real)>, labels: seq<int>, topics: seq<Field>, vectors: seq<seq<int>>,
                          write: (nat, seq<TopicRow>) -> bool)
    returns (rows: seq<TopicRow>, committed: seq<seq<TopicRow>>, outcome: Outcome)
    requires |coords| == |topics| && |labels| == |topics| && |vectors| == |topics|
    requires forall i :: 0 <= i < |vectors| ==> |vectors[i]| >= 6
    ensures |rows| == |topics|
    ensures forall i :: 0 <= i < |rows| ==> rows[i] == RowOf(topics[i], vectors[i], coords[i], labels[i])
    ensures |committed| <= |Chunks(rows, BatchSize)| && committed == Chunks(rows, BatchSize)[..|committed|]
    ensures outcome.Saved? ==> Flatten(committed) == rows && |committed| == BatchCount(|rows|, BatchSize)
    ensures outcome.Failed? ==>
      (outcome.batch == |committed| < |Chunks(rows, BatchSize)|
       && !write(outcome.batch, Chunks(rows, BatchSize)[outcome.batch]))
  {
    rows := BuildTopicRows(coords, labels, topics, vectors);
    committed, outcome := WriteInBatches(rows, BatchSize, write);
    if outcome.Saved? {
      SavedAllRows(rows, BatchSize, committed);
    }
  }
}
