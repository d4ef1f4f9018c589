/**
 * The decisions of the word-cloud web service: which query the poet name
 * selects, and how `/generate_wordcloud` answers. The database, the
 * word-cloud drawing and the base64 encoding are parameters; each returns
 * `None` where the service sees a failure (an exception from the database,
 * `None` from the generator or from the encoder).
 */
module WordcloudApi {
  import opened Text
  import opened WordCounter
  import opened TopicWords

  /**
   * The value of `poet_name` in the request's JSON object: `null`, a string,
   * or any other JSON value (a number, boolean, array or object), of which
   * only its Python truth value matters here.
   */
  datatype Json = JNull | JString(s: string) | JOther(truthy: bool)

  /** The request body: a JSON object with or without `poet_name`, or anything else. */
  datatype Body =
    | NotAnObject   // missing, malformed, `null`, or a JSON value other than an object
    | Object(poetName: Option<Json>)

  /** `data.get('poet_name', '全部诗人')` on an object body. */
  function PoetName(poetName: Option<Json>): Json {
    match poetName
    case None => JString(AllPoets)
    case Some(v) => v
  }

  /** Python's truth value of the name. */
  predicate Truthy(v: Json) {
    match v
    case JNull => false
    case JString(s) => s != ""
    case JOther(t) => t
  }

  /** The two queries of `get_topic_words_by_poet`. */
  datatype Query = AllTopicWords | TopicWordsOf(poet: Json)

  /**
   * `if poet_name and poet_name != "全部诗人"`: the per-poet query, else
   * every row. A value that is not a string never equals `"全部诗人"`.
   */
  function ChooseQuery(poetName: Json): Query {
    if Truthy(poetName) && poetName != JString(AllPoets) then TopicWordsOf(poetName)
    else AllTopicWords
  }

  /**
   * Every row is read exactly for `null`, an empty or `全部诗人` name and a
   * falsy non-string value; any other name, strings and truthy values alike,
   * reads the rows of that poet. A missing name reads every row.
   */
  lemma QueryChoice(poetName: Json)
    ensures ChooseQuery(poetName) == AllTopicWords <==>
      poetName == JNull || poetName == JString("") || poetName == JString(AllPoets)
      || (poetName.JOther? && !poetName.truthy)
    ensures ChooseQuery(poetName).TopicWordsOf? ==> ChooseQuery(poetName).poet == poetName
    ensures ChooseQuery(PoetName(None)) == AllTopicWords
  {
  }

  /** Why a request failed. */
  datatype Failure = NoData | NoWords | GenerationFailed | EncodingFailed | Raised

  datatype Response = Success(poet: Json, image: string) | Error(reason: Failure)

  /** The HTTP status of the answer. */
  function Status(r: Response): nat {
    match r
    case Success(_, _) => 200
    case Error(f) => if f == NoData || f == NoWords then 404 else 500
  }

  /**
   * `api_generate_wordcloud`: a body that is not a JSON object makes
   * `request.json` or `data.get` raise before the database is read; no rows
   * and no words are 404, a failed drawing or encoding and any exception are
   * 500, and otherwise the answer carries the poet name and the encoded image.
   */
  function Endpoint<Img>(request: Body, fetch: Query -> Option<seq<Field>>,
                         generate: seq<Entry> -> Option<Img>, encode: Img -> Option<string>): Response
  {
    match request
    case NotAnObject => Error(Raised)
    case Object(p) =>
    var poetName := PoetName(p);
    match fetch(ChooseQuery(poetName))
    case None => Error(Raised)
    case Some(rows) =>
      if rows == [] then Error(NoData)
      else
        var wordCounts := Tally(AllWords(rows));
        if wordCounts == [] then Error(NoWords)
        else
          match generate(wordCounts)
          case None => Error(GenerationFailed)
          case Some(img) =>
            match encode(img)
            case None => Error(EncodingFailed)
            case Some(image) => Success(poetName, image)
  }

  /**
   * The answers in terms of the data: a body that is not a JSON object is
   * answered 500 whatever the database holds. For an object, 404 exactly
   * when the query returned no rows or rows without a single word; success
   * exactly when, beyond that, drawing and encoding both went through, and
   * then the answer echoes the poet name (`全部诗人` when none was sent) and
   * carries the encoded image of the counts of the words.
   */
  lemma EndpointOutcomes<Img>(request: Body, fetch: Query -> Option<seq<Field>>,
                              generate: seq<Entry> -> Option<Img>, encode: Img -> Option<string>)
    ensures request.NotAnObject? ==>
      Endpoint(request, fetch, generate, encode) == Error(Raised)
      && Status(Endpoint(request, fetch, generate, encode)) == 500
    ensures request.Object? ==>
      var r := Endpoint(request, fetch, generate, encode);
      var rows := fetch(ChooseQuery(PoetName(request.poetName)));
      (Status(r) == 404 <==> rows.Some? && (rows.value == [] || AllWords(rows.value) == []))
      && (r.Success? <==>
            rows.Some? && rows.value != [] && AllWords(rows.value) != []
            && generate(Tally(AllWords(rows.value))).Some?
            && encode(generate(Tally(AllWords(rows.value))).value).Some?)
      && (r.Success? ==>
            r.poet == PoetName(request.poetName)
            && r.image == encode(generate(Tally(AllWords(rows.value))).value).value)
    ensures var status := Status(Endpoint(request, fetch, generate, encode));
      status == 200 || status == 404 || status == 500
  {
    if request.Object? {
      var rows := fetch(ChooseQuery(PoetName(request.poetName)));
      if rows.Some? {
        TallyShape(AllWords(rows.value));
      }
    }
  }

  /** A request object without a name answers for every poet. */
  lemma DefaultAnswer<Img>(fetch: Query -> Option<seq<Field>>,
                           generate: seq<Entry> -> Option<Img>, encode: Img -> Option<string>)
    ensures Endpoint(Object(None), fetch, generate, encode).Success? ==>
      Endpoint(Object(None), fetch, generate, encode).poet == JString(AllPoets)
    ensures Endpoint(Object(None), fetch, generate, encode)
      == Endpoint(Object(Some(JString(AllPoets))), fetch, generate, encode)
  {
  }
}
