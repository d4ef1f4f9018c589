# Ming–Qing poetry processing: the exact core

This project models the deterministic routines underneath the poetry
visualisation scripts, and proves what those routines promise:

- **Emotion labels** (`processdata/emotion/emotion_visualization.py`).
  A label such as `"思，哀"` or `"怒/豪"` is split on either comma glyph into
  stripped tokens. The first token weighs 0.6 and each later one 0.4/(n-1).
  Every token is looked up in the five-dimensional emotion table, with a
  fallback to its slash parts. The weighted sum is then normalised
  (`convert_to_vector`). The same weighting blends the RGBA colour table,
  with grey as the fallback (`get_emotion_color`). The module also covers
  the rows written to the database and their batches of at most 1000.
  Module `Emotion`, file `emotion.dfy`.
- **Topic ids** (`processdata/lda_visualization/topic_clustering.py`).
  A comma-separated list of integer ids becomes a 0/1 vector of length
  `num_topics`. A non-integer token is an error. The module also covers the
  stored rows and their batches. Module `Topics`, file `topics.dfy`.
- **Topic words** (`process_topic_words`, copied in `create_wordcloud.py`,
  `create_wordcloud1.py` and `wordcloud_api_server.py`, identical apart from
  debug printing).
  Quoted segments take priority over the unquoted text. Words are split on
  both comma glyphs, stripped, kept only if non-empty, and counted.
  One model serves the three copies: module `TopicWords`, file
  `topic_words.dfy`. Its counter is module `WordCounter`, file `counter.dfy`.
- **Pixel rules** (module `Pixels`, file `pixels.dfy`). These cover the
  alpha-threshold mask (alpha ≤ 50 gives 255, otherwise 0) and the
  per-pixel compositing of the word cloud over the resized mask. Both are
  in-place updates of `array2`/`array3` buffers.
- **Bookkeeping**:
  - the batch slicing shared by both `save_results_to_db` functions
    (module `Batches`);
  - the frequency CSV file name (module `CloudFiles`);
  - the query choice and 404/500/success decisions of the word-cloud
    endpoint (module `WordcloudApi`);
  - the sort, middle window and low-frequency selection in the `main` of
    `create_wordcloud1.py` (module `FrequencyReport`).
- Python's `str.strip`, `str.split`, `str.replace` and `int()` are modelled
  once in module `Text` (file `text.dfy`) and in `Topics`.

Weights and colours are exact `real`s: "= 0.6" in the model reads as "≈ 0.6"
in the Python program. A database cell that may be `None` or NaN is a `Field`
(`Null` or `Value(s)`). A `collections.Counter` is a sequence of
`(word, count)` entries in first-occurrence order, which is the order a
Python dict keeps. Dimension indices are 0-based, so the fifth emotion
dimension (`怒`/`豪`) is index 4.

## Model

| member | source | states |
|---|---|---|
| Text.TrimLeftSpec | processdata/emotion/emotion_visualization.py:106 | stripping the left end removes exactly a prefix of whitespace and leaves a result that is empty or starts with a non-space |
| Text.TrimRightSpec | processdata/emotion/emotion_visualization.py:106 | stripping the right end removes exactly a suffix of whitespace and leaves a result that is empty or ends with a non-space |
| Text.StripSpec | processdata/wordcloud_ciyun/create_wordcloud.py:98 | `strip()` returns the contiguous middle of the string with whitespace on both sides removed, and the result has no whitespace at either end |
| Text.StripIdempotent | processdata/wordcloud_ciyun/create_wordcloud.py:110 | stripping twice is the same as stripping once |
| Text.StripChars | processdata/wordcloud_ciyun/create_wordcloud.py:110 | stripping never introduces a character that was not there |
| Text.BlankIffAllSpace | processdata/wordcloud_ciyun/create_wordcloud.py:85 | `len(s.strip()) == 0` exactly when every character is whitespace |
| Text.Split | processdata/emotion/emotion_visualization.py:106 | `split` always yields at least one piece, and no piece contains a separator |
| Text.SplitChars | processdata/wordcloud_ciyun/create_wordcloud.py:97 | a character absent from the input is absent from every piece |
| Text.SplitCount | processdata/emotion/emotion_visualization.py:106 | the number of pieces is one more than the number of separators, so empty pieces are counted |
| Text.JoinSplit | processdata/lda_visualization/topic_clustering.py:46 | joining the pieces of `s.split(sep)` with `sep` gives `s` back |
| Text.SplitJoin | processdata/lda_visualization/topic_clustering.py:46 | splitting a join of separator-free pieces gives the pieces back |
| Text.Replace | processdata/emotion/emotion_visualization.py:106 | `replace(a, b)` keeps the length and maps each occurrence of `a` to `b`, leaving every other character in place |
| Text.Remove | processdata/wordcloud_ciyun/create_wordcloud.py:104 | `replace('"', '')` leaves no quote and shortens the text by the number of quotes |
| Text.RemoveAppend | processdata/wordcloud_ciyun/create_wordcloud.py:104 | deleting the quotes of a concatenation deletes them from each part, so the other characters keep their order |
| Text.ReplaceThenSplit | processdata/emotion/emotion_visualization.py:106 | replacing `，` by `,` and splitting on `,` is the same as splitting on either comma glyph |
| Text.SplitTwice | processdata/wordcloud_ciyun/create_wordcloud.py:104-108 | splitting on `，` and then each piece on `,` is the same as splitting once on either glyph |
| Text.IndexOf | processdata/wordcloud_ciyun/create_wordcloud.py:90 | the search returns the first position of the character, or nothing exactly when the character is absent |
| WordCounter.BumpCount | processdata/wordcloud_ciyun/create_wordcloud.py:115 | counting one more word raises the count of that word by one and leaves every other count unchanged |
| WordCounter.BumpTotal | processdata/wordcloud_ciyun/create_wordcloud.py:115 | counting one more word raises the total by one |
| WordCounter.BumpShape | processdata/wordcloud_ciyun/create_wordcloud.py:115 | the counter keeps one entry per word, every count stays positive, and the word joins the key set |
| WordCounter.TallyCounts | processdata/wordcloud_ciyun/create_wordcloud1.py:80 | `Counter(all_words)[w]` is the number of occurrences of `w` in the word list |
| WordCounter.TallyTotal | processdata/wordcloud_ciyun/create_wordcloud1.py:80 | the counts add up to the number of words |
| WordCounter.TallyShape | processdata/wordcloud_ciyun/create_wordcloud.py:115 | the counter has one entry per distinct word, each with a positive count; it is empty exactly when the word list is |
| WordCounter.TallyOrderInsensitive | processdata/wordcloud_ciyun/create_wordcloud.py:115 | two word lists with the same elements in any order give the same counts |
| TopicWords.Quoted | processdata/wordcloud_ciyun/create_wordcloud.py:90 | `re.findall(r'"([^"]*)"')` yields segments without quote characters |
| TopicWords.QuotedPair | processdata/wordcloud_ciyun/create_wordcloud.py:90 | a pair of quotes around quote-free text yields exactly that text as the next match, and matching resumes after the closing quote, so text outside the quotes is dropped |
| TopicWords.QuotedLone | processdata/wordcloud_ciyun/create_wordcloud.py:90 | a lone quote opens no match: text with a single quote yields no segment |
| TopicWords.QuotedCount | processdata/wordcloud_ciyun/create_wordcloud.py:90 | the non-overlapping left-to-right matches number half the quote characters, rounded down |
| TopicWords.ProcessTopicWords | processdata/wordcloud_ciyun/create_wordcloud.py:74-119 | the append loops build exactly the word list of the rows, and the counts are the counter of that list |
| TopicWords.AppendQuoted | processdata/wordcloud_ciyun/create_wordcloud.py:94-100 | the quoted branch appends the kept words of every segment, in order |
| TopicWords.AppendUnquoted | processdata/wordcloud_ciyun/create_wordcloud.py:106-112 | the unquoted branch appends the kept words of every `，` piece, in order |
| TopicWords.AppendWords | processdata/wordcloud_ciyun/create_wordcloud.py:97-100 | the inner loop appends exactly the stripped, non-empty pieces, in order |
| TopicWords.UnquotedSplit | processdata/wordcloud_ciyun/create_wordcloud.py:104-112 | splitting on `，` and then on `,` keeps the same words as one split on both glyphs |
| TopicWords.KeepClean | processdata/wordcloud_ciyun/create_wordcloud.py:109-112 | every kept word is non-empty, has no whitespace at either end and contains no comma or quote |
| TopicWords.SplitClean | processdata/wordcloud_ciyun/create_wordcloud.py:101-112 | every word of the unquoted path is clean |
| TopicWords.AllWordsClean | processdata/wordcloud_ciyun/create_wordcloud1.py:49-77 | every emitted word is stripped, non-empty and free of commas and quotes |
| TopicWords.BlankRowsIgnored | processdata/wordcloud_api_server.py:88-89 | a `None` or whitespace-only row contributes no words |
| TopicWords.AllWordsPermutation | processdata/wordcloud_ciyun/create_wordcloud.py:84-112 | reordering the rows permutes the word list |
| TopicWords.WordCountsAreOccurrences | processdata/wordcloud_api_server.py:118-120 | each count equals the occurrences of the word, the counts sum to the number of words, and reordering the rows leaves every count unchanged |
| TopicWords.UnquotedRow | processdata/wordcloud_ciyun/create_wordcloud.py:101-112 | a row without quotes is split on both comma glyphs and its pieces kept |
| TopicWords.RemoveAbsent | processdata/wordcloud_ciyun/create_wordcloud.py:104 | deleting quotes from text without quotes changes nothing |
| TopicWords.EmptyQuotedSegment | processdata/wordcloud_ciyun/create_wordcloud.py:92-100 | a row whose only match is `""` yields no words and does not fall back to the unquoted path |
| Batches.ChunkCount | processdata/lda_visualization/topic_clustering.py:199-201 | there are `(n + size - 1) // size` slices |
| Batches.ChunkSizes | processdata/lda_visualization/topic_clustering.py:201-202 | every slice holds between 1 and `size` rows, and every slice but the last holds exactly `size` |
| Batches.ChunksFlatten | processdata/lda_visualization/topic_clustering.py:201-202 | the slices concatenate to the row list |
| Batches.WriteInBatches | processdata/lda_visualization/topic_clustering.py:201-210 | the slices are written in order; on success all were written; on failure the failing slice is reported and no later slice is attempted |
| Batches.SavedAllRows | processdata/emotion/emotion_visualization.py:573-578 | after every slice is written, exactly the rows were written, in ⌈n/1000⌉ slices |
| Batches.FailedPrefix | processdata/emotion/emotion_visualization.py:573-582 | after a failure, what was committed is a prefix of the rows |
| Emotion.LookupIn | processdata/emotion/emotion_visualization.py:120 | a table lookup returns the value stored under the key, and finds nothing exactly when no entry has the key |
| Emotion.LookupAt | processdata/emotion/emotion_visualization.py:120 | the first entry carrying the key decides the value |
| Emotion.EmotionDim | processdata/emotion/emotion_visualization.py:32-40 | every known emotion maps to one of the five dimensions |
| Emotion.KnownDims | processdata/emotion/emotion_visualization.py:32-40 | `思`, `乐`, `哀` and `喜` map to dimensions 0–3, and `怒`, `豪` and `怒/豪` all map to dimension 4 |
| Emotion.ConvertToVector | processdata/emotion/emotion_visualization.py:99-145 | the accumulate-and-normalise loop computes the five-vector of the label |
| Emotion.AccumulateTokens | processdata/emotion/emotion_visualization.py:119-133 | the token loop leaves in `vector` the weighted sum of the map entries of the tokens and of their slash parts |
| Emotion.AddToken | processdata/emotion/emotion_visualization.py:119-135 | one token adds its weighted one-hot row (or its slash parts' rows) to the vector and nothing else |
| Emotion.DivideAll | processdata/emotion/emotion_visualization.py:138-140 | dividing the array by its sum replaces it by the scaled vector |
| Emotion.WeightPositive | processdata/emotion/emotion_visualization.py:116-122 | `remaining_weight` and every token weight are positive |
| Emotion.WeightsAddUp | processdata/emotion/emotion_visualization.py:116-122 | the first token weighs 0.6; the weights of n > 1 tokens add up to 1, and a sole token carries only 0.6 because the `else 1` branch is never taken for it |
| Emotion.WeightTotalLater | processdata/emotion/emotion_visualization.py:117-122 | the first k weights add up to 0.6 + (k-1)·0.4/(n-1) |
| Emotion.TokenCount | processdata/emotion/emotion_visualization.py:106-113 | the token count n is the number of commas of either glyph plus one, so empty and unknown tokens count towards n |
| Emotion.PartMassHits | processdata/emotion/emotion_visualization.py:127-133 | the slash parts add the full token weight once per recognised part of that dimension |
| Emotion.TokenMassHits | processdata/emotion/emotion_visualization.py:119-135 | a token adds its weight times its number of hits in the dimension |
| Emotion.MassNonNegative | processdata/emotion/emotion_visualization.py:119-135 | every accumulated entry is non-negative |
| Emotion.MassPositive | processdata/emotion/emotion_visualization.py:119-135 | an accumulated entry is positive exactly when some token hits that dimension |
| Emotion.AccumulatedNonNegative | processdata/emotion/emotion_visualization.py:104-135 | the accumulated vector has five non-negative entries |
| Emotion.AccumulatedSum | processdata/emotion/emotion_visualization.py:137-145 | the accumulated sum is positive exactly when some token is recognised, and otherwise the vector stays zero |
| Emotion.ScaleToDistribution | processdata/emotion/emotion_visualization.py:138-140 | dividing a non-negative vector by its positive sum gives entries in [0, 1] summing to 1 |
| Emotion.TokenVectorIsDistribution | processdata/emotion/emotion_visualization.py:137-145 | the result is a probability vector when a token is recognised, and the zero vector otherwise |
| Emotion.VectorIsDistribution | processdata/emotion/emotion_visualization.py:99-145 | every label gives five entries in [0, 1] that either sum to 1 or are all zero |
| Emotion.ZeroIffUnrecognised | processdata/emotion/emotion_visualization.py:101-145 | the result is the zero vector exactly when the label is `None`, NaN or empty, or no token is recognised |
| Emotion.ScaleUnit | processdata/emotion/emotion_visualization.py:138-140 | normalising a vector with a single positive entry gives the unit vector |
| Emotion.OneHotTokens | processdata/emotion/emotion_visualization.py:113-145 | tokens that hit only one dimension give the one-hot vector of that dimension |
| Emotion.OneHot | processdata/emotion/emotion_visualization.py:99-145 | a label whose recognised tokens all denote one emotion gives that emotion's one-hot vector |
| Emotion.SoleToken | processdata/emotion/emotion_visualization.py:113-145 | a sole recognised token accumulates 0.6 and normalises to its one-hot vector |
| Emotion.TwoTokens | processdata/emotion/emotion_visualization.py:113-145 | `"A,B"` with A and B known and distinct gives 0.6 at A and 0.4 at B |
| Emotion.UnknownFirstToken | processdata/emotion/emotion_visualization.py:113-145 | an unknown first token still counts in n, and the second token's 0.4 normalises to 1 |
| Emotion.TokensOf | processdata/emotion/emotion_visualization.py:106 | a comma-free label without edge whitespace is a single token |
| Emotion.TokensOfTwo | processdata/emotion/emotion_visualization.py:106 | `"s,t"` gives the two tokens `s` and `t` |
| Emotion.UnknownThenSi | processdata/emotion/emotion_visualization.py:106-145 | `"X,思"` gives 1.0 at `思` |
| Emotion.SoleKey | processdata/emotion/emotion_visualization.py:106-145 | a label that is exactly one known key gives that key's one-hot vector |
| Emotion.RageSynonyms | processdata/emotion/emotion_visualization.py:120-135 | `怒`, `豪` and `怒/豪` each give the one-hot vector of dimension 4 |
| Emotion.SplitSiAi | processdata/emotion/emotion_visualization.py:128 | `"思/哀".split('/')` is `["思", "哀"]` |
| Emotion.SlashKeyUnknown | processdata/emotion/emotion_visualization.py:32-40 | `思/哀` is not a key of the table |
| Emotion.SlashMass | processdata/emotion/emotion_visualization.py:126-133 | `思/哀` adds its full weight to both `思` and `哀` |
| Emotion.SlashTokenSplitsWeight | processdata/emotion/emotion_visualization.py:126-145 | `"思/哀"` gives 0.5 at `思` and 0.5 at `哀` |
| Emotion.EmotionColor | processdata/emotion/emotion_visualization.py:43-51 | every table colour has RGB channels in [0.2, 0.8] and alpha 1.0 |
| Emotion.KnownColors | processdata/emotion/emotion_visualization.py:43-51 | the RGBA colour of each of the seven keys |
| Emotion.FirstColor | processdata/emotion/emotion_visualization.py:345-352 | the slash fallback finds a colour exactly when some part has one |
| Emotion.TokenColor | processdata/emotion/emotion_visualization.py:340-352 | any colour a token contributes is a table colour |
| Emotion.NewGrey | processdata/emotion/emotion_visualization.py:355-358 | the fallback colour is grey [0.5, 0.5, 0.5, 1.0] |
| Emotion.BlendToken | processdata/emotion/emotion_visualization.py:340-352 | one token adds its weighted colour when it or one of its slash parts has a colour, and reports whether it did |
| Emotion.AddWeighted | processdata/emotion/emotion_visualization.py:342-343 | `color += colour * weight` on all four channels |
| Emotion.GetEmotionColor | processdata/emotion/emotion_visualization.py:323-360 | the blending loop computes the label's colour |
| Emotion.PaintTokens | processdata/emotion/emotion_visualization.py:336-352 | the token loop leaves in `color` the weighted colours of the tokens and in `total_weight` the weight of the tokens that had a colour |
| Emotion.BlendFirstPart | processdata/emotion/emotion_visualization.py:346-352 | the part loop adds the weighted colour of the first part that has one, and only that, and reports whether there was one |
| Emotion.FirstColorAt | processdata/emotion/emotion_visualization.py:345-352 | the first slash part with a colour decides, and later parts are not consulted |
| Emotion.FirstColorNoneExtend | processdata/emotion/emotion_visualization.py:345-352 | a part without a colour lets the search continue |
| Emotion.TokenPaintBounds | processdata/emotion/emotion_visualization.py:340-352 | a token adds nothing or adds its weight times a colour with RGB in [0.2, 0.8] and alpha 1 |
| Emotion.PaintBounds | processdata/emotion/emotion_visualization.py:338-352 | the blended alpha equals the recognised weight, and each RGB channel lies between 0.2 and 0.8 times it |
| Emotion.TokenBlendBounds | processdata/emotion/emotion_visualization.py:354-358 | after the division (or the grey fallback) alpha is 1.0 and RGB lies in [0.2, 0.8] |
| Emotion.ColorBounds | processdata/emotion/emotion_visualization.py:323-360 | every label's colour has alpha 1.0 and RGB in [0.2, 0.8] |
| Emotion.CoverageZero | processdata/emotion/emotion_visualization.py:338-358 | the total weight is zero exactly when no token has a colour |
| Emotion.GreyWhenUnrecognised | processdata/emotion/emotion_visualization.py:323-360 | an empty label, or one without a recognised token, gives grey |
| Emotion.PaintSingle | processdata/emotion/emotion_visualization.py:338-352 | when every token with a colour has `x` in channel `ch`, that channel is the covered weight times `x` |
| Emotion.SingleColorTokens | processdata/emotion/emotion_visualization.py:338-358 | tokens of one colour blend to exactly that colour |
| Emotion.SingleColor | processdata/emotion/emotion_visualization.py:323-360 | a label whose recognised tokens share one colour gets that colour |
| Emotion.SlashColorTakesFirstPart | processdata/emotion/emotion_visualization.py:345-352 | `"思/哀"` is coloured as `思` alone, while its vector splits evenly between `思` and `哀` |
| Emotion.KeyColor | processdata/emotion/emotion_visualization.py:32-51 | the colour of a known key is the colour of its dimension |
| Emotion.TablesAgree | processdata/emotion/emotion_visualization.py:32-51 | the two tables have the same keys, and keys of one dimension share one colour |
| Emotion.BuildEmotionRows | processdata/emotion/emotion_visualization.py:555-567 | one row per input, in input order, holding the label, the five vector entries, the coordinates and the cluster label |
| Emotion.SaveEmotionResults | processdata/emotion/emotion_visualization.py:555-582 | the rows are built and written in consecutive slices of at most 1000; on success all ⌈n/1000⌉ slices concatenate to the rows, and on failure later slices are not attempted |
| Topics.ShowNat | processdata/lda_visualization/topic_clustering.py:46 | the printer of the `int(str(n)) == n` round trip that `int(t)` completes: `str(n)` of a natural number is a non-empty string of digits |
| Topics.ShowNatValue | processdata/lda_visualization/topic_clustering.py:46 | the digits of `str(n)` read back as `n` |
| Topics.StripUnspaced | processdata/lda_visualization/topic_clustering.py:46 | `strip` leaves a token without edge whitespace unchanged |
| Topics.ParseShow | processdata/lda_visualization/topic_clustering.py:46 | `int(str(n)) == n` for every integer, negative ones included |
| Topics.BlankTokenRejected | processdata/lda_visualization/topic_clustering.py:46 | `int()` of an empty or whitespace-only token raises |
| Topics.StrayCharRejected | processdata/lda_visualization/topic_clustering.py:46 | `int()` of a token holding any character other than a digit, a sign or whitespace raises |
| Topics.ParseAllSpec | processdata/lda_visualization/topic_clustering.py:46 | the list comprehension raises exactly when some token does not parse, and otherwise yields each token's value in order |
| Topics.Zeros | processdata/lda_visualization/topic_clustering.py:44 | `[0] * n` has `n` zeros, and none when `n` is negative |
| Topics.ConvertTopics | processdata/lda_visualization/topic_clustering.py:42-51 | the array loop computes the topic vector, or reports the parse error |
| Topics.VectorShape | processdata/lda_visualization/topic_clustering.py:47-51 | the vector has `num_topics` entries, each 0 or 1, and entry k is 1 exactly when some id equals k |
| Topics.SameIdsSameVector | processdata/lda_visualization/topic_clustering.py:48-50 | order and repetition of the ids do not matter |
| Topics.RepeatedId | processdata/lda_visualization/topic_clustering.py:48-50 | setting an entry to 1 again changes nothing |
| Topics.OutOfRangeIgnored | processdata/lda_visualization/topic_clustering.py:49 | negative and too-large ids leave the vector unchanged |
| Topics.NullTopic | processdata/lda_visualization/topic_clustering.py:43-44 | a NaN topic string gives `num_topics` zeros |
| Topics.EmptyTokenRaises | processdata/lda_visualization/topic_clustering.py:46 | `""` and `"1,,2"` raise, because the empty token is not an integer |
| Topics.ParseJoined | processdata/lda_visualization/topic_clustering.py:46 | a comma-joined list of `str(id)` parses back to the ids |
| Topics.BuildTopicRows | processdata/lda_visualization/topic_clustering.py:181-195 | one row per input, in order, storing `""` for a NaN topic and `str(topic)` otherwise, with the six vector entries, the coordinates and the label |
| Topics.SaveTopicResults | processdata/lda_visualization/topic_clustering.py:181-210 | the rows are built and written in slices of at most 1000 covering all rows; a failing slice stops the writing |
| Pixels.MarkByAlpha | processdata/wordcloud_ciyun/create_wordcloud.py:215-216 | one boolean-indexed assignment sets exactly the selected pixels and keeps the others |
| Pixels.AlphaMask | processdata/wordcloud_ciyun/create_wordcloud.py:214-216 | the mask has the image's height and width and is 255 exactly where alpha ≤ 50, 0 elsewhere |
| Pixels.MaskValues | processdata/wordcloud_api_server.py:214-216 | a mask pixel is 255 or 0, and 255 exactly when alpha ≤ 50 |
| Pixels.FillOutside | processdata/wordcloud_ciyun/create_wordcloud1.py:175-177 | `result[:, :, c][resized_mask == 0] = v` sets channel c where the mask is 0 and changes nothing else |
| Pixels.CopyText | processdata/wordcloud_ciyun/create_wordcloud1.py:179-182 | channel c is copied from the word cloud exactly where the word cloud has alpha > 0 |
| Pixels.Composite | processdata/wordcloud_ciyun/create_wordcloud1.py:167-182 | every composited pixel is the word-cloud pixel where it has alpha, otherwise (0,0,0,255) where the mask is 0 and (0,0,0,0) where it is not |
| Pixels.CompositeCases | processdata/wordcloud_ciyun/create_wordcloud1.py:174-182 | a text pixel is kept; a pixel without text is black and is opaque exactly outside the outline |
| Pixels.TransparentIff | processdata/wordcloud_ciyun/create_wordcloud1.py:174-182 | a composited pixel is transparent exactly when it has no text and lies inside the outline |
| Pixels.CompositeOverAlphaMask | processdata/wordcloud_ciyun/create_wordcloud1.py:106-108 | over the alpha mask itself, a pixel without text is opaque black where the source alpha exceeds 50 and transparent elsewhere |
| FrequencyReport.InsertPerm | processdata/wordcloud_ciyun/create_wordcloud1.py:251 | inserting an item adds exactly that item |
| FrequencyReport.InsertDescending | processdata/wordcloud_ciyun/create_wordcloud1.py:251 | inserting into a list of non-increasing counts keeps the counts non-increasing |
| FrequencyReport.InsertStable | processdata/wordcloud_ciyun/create_wordcloud1.py:251 | the inserted item goes before the existing items of its count, whatever the order of the list |
| FrequencyReport.SortSpec | processdata/wordcloud_ciyun/create_wordcloud1.py:250-251 | the sorted list is a permutation of the items, counts never increase, and items of equal count keep their order |
| FrequencyReport.MiddleWindow | processdata/wordcloud_ciyun/create_wordcloud1.py:252-258 | the loop collects exactly the items at indices `total//2-2` to `total//2+2` that lie in `[0, total)` |
| FrequencyReport.WindowShape | processdata/wordcloud_ciyun/create_wordcloud1.py:252-258 | the window holds min(5, total) items and contains the middle item |
| FrequencyReport.Reverse | processdata/wordcloud_ciyun/create_wordcloud1.py:263 | `reversed` lists the items from the last to the first |
| FrequencyReport.MinWords | processdata/wordcloud_ciyun/create_wordcloud1.py:262-273 | the two breaking loops compute the low-frequency selection |
| FrequencyReport.FillMany | processdata/wordcloud_ciyun/create_wordcloud1.py:263-267 | the first loop takes the first items of count above 1 from the low end, up to five |
| FrequencyReport.FillOnes | processdata/wordcloud_ciyun/create_wordcloud1.py:268-273 | with distinct items, the second loop takes the first items of count 1 from the low end until there are five; its `not in` test never fires |
| FrequencyReport.SplitCounts | processdata/wordcloud_ciyun/create_wordcloud1.py:263-271 | with positive counts, every item has count 1 or count above 1 |
| FrequencyReport.FilterDistinct | processdata/wordcloud_ciyun/create_wordcloud1.py:263-271 | each of the two filters keeps words distinct |
| FrequencyReport.ReverseShape | processdata/wordcloud_ciyun/create_wordcloud1.py:263 | reversing keeps the items, their distinct words and their positive counts |
| FrequencyReport.LowWordsForm | processdata/wordcloud_ciyun/create_wordcloud1.py:262-273 | the selection is up to five items of count above 1 from the low end, followed by items of count 1 from the low end |
| FrequencyReport.LowWordsLength | processdata/wordcloud_ciyun/create_wordcloud1.py:262-273 | the selection has min(5, total) items |
| FrequencyReport.LowWordsDistinct | processdata/wordcloud_ciyun/create_wordcloud1.py:262-273 | no word is selected twice |
| FrequencyReport.LowEndFirst | processdata/wordcloud_ciyun/create_wordcloud1.py:263-267 | walking the sorted list backwards meets the items of count above 1 in non-decreasing count order |
| FrequencyReport.RunReport | processdata/wordcloud_ciyun/create_wordcloud1.py:202-273 | `main` stops with no rows, stops with no words, and otherwise counts, takes the five most common words, sorts and selects the middle and low-frequency words |
| FrequencyReport.TopFive | processdata/wordcloud_ciyun/create_wordcloud1.py:245 | `most_common(5)` holds min(5, distinct words) items of the counter, highest count first, and no item left out has a higher count than one chosen |
| FrequencyReport.SummaryShape | processdata/wordcloud_ciyun/create_wordcloud1.py:245-273 | a summary sorts a permutation of the counts highest first, both selections hold min(5, distinct words) items, and the low selection has no word twice |
| FrequencyReport.PermutedWords | processdata/wordcloud_ciyun/create_wordcloud1.py:250-251 | the sorted counter still lists each word once |
| WordcloudApi.QueryChoice | processdata/wordcloud_api_server.py:58-79 | a `null`, empty or `全部诗人` poet name or a falsy non-string value selects the unfiltered query; any other name, a truthy non-string value included, selects that poet's query; a request without `poet_name` defaults to `全部诗人` |
| WordcloudApi.EndpointOutcomes | processdata/wordcloud_api_server.py:344-412 | a body that is not a JSON object is answered 500 whatever the database holds; for an object, 404 exactly when the query returns no rows or no words; success exactly when the rows give words and generation and encoding both succeed, echoing the poet name and the image; otherwise 500 |
| WordcloudApi.DefaultAnswer | processdata/wordcloud_api_server.py:348-350 | a request object without `poet_name` is answered as one for `全部诗人` |
| CloudFiles.CsvShape | processdata/wordcloud_ciyun/create_wordcloud.py:374-378 | the file name is the poet name with spaces replaced by `_`, or `all_poets` for `全部诗人`, followed by `_word_frequencies.csv` |
| CloudFiles.CsvCollision | processdata/wordcloud_ciyun/create_wordcloud.py:374-378 | two poet names share a file exactly when they agree after replacing spaces, or both are `全部诗人` or `all_poets` |

## Left out

- Database access: connections, queries, `executemany`, `commit` and `rollback`. Rows arrive as a given sequence. A batch write is a given function that succeeds or fails, and the endpoint's data fetch is a given function that may raise.
- UMAP, t-SNE, PCA and KMeans, and the Gaussian noise added before them. These are randomised foreign libraries over floating point; their coordinates and labels are inputs of the row builders.
- Plot geometry, convex hulls, splines, background colouring, jitter, click handling and the push-apart loop for cluster centres. They need floating-point geometry, and the moved centres are never used.
- matplotlib, seaborn, the Tk `WordCloudApp` window, `WordCloud`/`ImageColorGenerator`, the cv2 morphology, erosion and resize, and PIL file I/O. Their arrays are the inputs of `Pixels`.
- Pixels.CompositeOverAlphaMask: relates the composite to the alpha mask before cleaning. The morphology, erosion and resizing in between are not modelled.
- Font, stopword and mask discovery through hardcoded path lists, and `os.path.abspath`.
- Flask routing, CORS, JSON parsing and serialisation, the error message texts and the base64 PNG encoding. The endpoint's answer is a `Response` value, and generation and encoding are given functions that may fail. A request body that is not a JSON object (missing, malformed, `null`, or another JSON type) is one case, since each is answered 500 by the same `except`.
- WordcloudApi.Json: a `poet_name` that is neither a string nor `null` keeps only its Python truth value, so the query and the echoed name do not tell two such values apart.
- The websocket runners, the dependency installer and the front-end data and type files. They have no modelled behaviour.
- Printing: debug output, and the printed top five, middle and low-frequency lists (the model returns these lists instead).
- The `pandas` sort and the CSV write of the frequency table. Only the file name is modelled.
- IEEE rounding. Weights, sums and colours are exact reals, so "= 0.6" in the model reads as "≈ 0.6" in the program.
- Topics.ParseInt: `int()` also accepts `_` digit separators and non-ASCII decimal digits; the model accepts ASCII digits with an optional sign and surrounding whitespace.
- Topics.StoredVector: `float(vectors[i][k])` of a 0/1 entry is stored as the exact real.
- FrequencyReport.SortByCount: Python's Timsort is modelled by a stable insertion sort. The proved properties (a permutation, non-increasing counts, equal counts in their original order) determine the result uniquely.
- Emotion.ConvertToVector: the result is a five-entry sequence of reals, not a numpy array of floats.
