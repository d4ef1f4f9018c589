/**
 * The name of the CSV file the word-cloud window writes the frequencies of
 * the selected poet to: spaces in the name become `_`, and the entry that
 * stands for every poet has a file name of its own.
 */
module CloudFiles {
  import opened Text

  const Suffix: string := "_word_frequencies.csv"
  const AllPoetsFile: string := "all_poets_word_frequencies.csv"

  /** `selected_poet.replace(" ", "_")` */
  function Underscored(name: string): string {
    Replace(name, ' ', '_')
  }

  /** The CSV path for the selected poet. */
  function CsvName(selectedPoet: string): string {
    var poetName := Underscored(selectedPoet);
    if poetName == AllPoets then AllPoetsFile else poetName + Suffix
  }

  /** What stands before the suffix. */
  function Stem(selectedPoet: string): string {
    if Underscored(selectedPoet) == AllPoets then "all_poets" else Underscored(selectedPoet)
  }

  /** Every name is a stem followed by `_word_frequencies.csv`, and holds no space. */
  lemma CsvShape(selectedPoet: string)
    ensures CsvName(selectedPoet) == Stem(selectedPoet) + Suffix
    ensures ' ' !in CsvName(selectedPoet)
    ensures Underscored(selectedPoet) != AllPoets ==> Stem(selectedPoet) == Underscored(selectedPoet)
  {
    assert AllPoetsFile == "all_poets" + Suffix;
    UnderscoredNoSpace(selectedPoet);
    NoSpaceJoin(Stem(selectedPoet), Suffix);
  }

  /** No space survives `replace(" ", "_")`. */
  lemma UnderscoredNoSpace(name: string)
    ensures ' ' !in Underscored(name)
  {
    var u := Underscored(name);
    forall i | 0 <= i < |u| ensures u[i] != ' ' {
    }
  }

  lemma NoSpaceJoin(a: string, b: string)
    requires ' ' !in a && ' ' !in b
    ensures ' ' !in a + b
  {
  }

  lemma SameSuffix(a: string, b: string, t: string)
    requires a + t == b + t
    ensures a == b
  {
    assert |a| == |b|;
    assert a == (a + t)[..|a|] && b == (b + t)[..|b|];
  }

  /**
   * Two selections share a file exactly when they agree once spaces become
   * `_`, or when each is `全部诗人` or `all_poets` after that replacement.
   */
  lemma CsvCollision(a: string, b: string)
    ensures CsvName(a) == CsvName(b) <==>
      Underscored(a) == Underscored(b)
      || ((Underscored(a) == AllPoets || Underscored(a) == "all_poets")
          && (Underscored(b) == AllPoets || Underscored(b) == "all_poets"))
  {
    CsvShape(a);
    CsvShape(b);
    if CsvName(a) == CsvName(b) {
      SameSuffix(Stem(a), Stem(b), Suffix);
    }
  }
}
