/**
 * The request validation of the three POST endpoints: `/api/query`,
 * `/api/voice` and `/api/sql`. Each handler either rejects the request with
 * a status and an error message or hands a text on (to `text_to_sql`, or to
 * `execute_sql_query` for direct SQL). A JSON body is a map from field names
 * to string values; a missing or `null` body is `None`.
 */
module Routes {
  import opened Wrappers
  import opened Text

  /** Why a request is rejected; `Message` is the `error` text of the response. */
  datatype Refusal =
    | QueryRequired
    | QueryEmpty
    | AudioRequired
    | NoAudioSelected
    | SpeechError(reason: string)
    | SqlRequired
    | SqlEmpty
    | Dangerous(keyword: string)
  {
    function Message(): string {
      match this
      case QueryRequired => "Query text is required"
      case QueryEmpty => "Query text cannot be empty"
      case AudioRequired => "Audio file is required"
      case NoAudioSelected => "No audio file selected"
      case SpeechError(reason) => reason
      case SqlRequired => "SQL query is required"
      case SqlEmpty => "SQL query cannot be empty"
      case Dangerous(keyword) => "Dangerous SQL operation detected: " + keyword + ". Only SELECT queries are allowed."
    }
  }

  /** What a handler decides before any query runs. */
  datatype Decision = Reject(status: nat, refusal: Refusal) | Proceed(text: string)

  const BadRequest: nat := 400

  // ---------------------------------------------------------------------
  // /api/query

  /**
   * `process_query`: a body without a `query` field is rejected, so is a
   * query that is only whitespace; otherwise the stripped query goes on to
   * `text_to_sql`, and that text is non-empty with no whitespace at either end.
   */
  function QueryDecision(body: Option<map<string, string>>): (d: Decision)
    ensures d == Reject(BadRequest, QueryRequired) <==> body.None? || "query" !in body.value
    ensures d == Reject(BadRequest, QueryEmpty) <==> body.Some? && "query" in body.value && Strip(body.value["query"]) == []
    ensures d.Proceed? <==> body.Some? && "query" in body.value && Strip(body.value["query"]) != []
    ensures d.Proceed? ==> d.text == Strip(body.value["query"])
    ensures d.Reject? ==> d.status == BadRequest
    ensures d.Proceed? ==> d.text != [] && !IsSpace(d.text[0]) && !IsSpace(d.text[|d.text| - 1])
  {
    if body.None? || "query" !in body.value then Reject(BadRequest, QueryRequired)
    else
      var text := Strip(body.value["query"]);
      if text == [] then Reject(BadRequest, QueryEmpty)
      else Proceed(text)
  }

  // ---------------------------------------------------------------------
  // /api/voice

  /** The uploaded `audio` file, of which only the name matters here. */
  datatype AudioUpload = AudioUpload(filename: string)

  /** What the speech service returns for the uploaded audio. */
  datatype SpeechResult = Transcribed(text: string) | SpeechFailed(error: string)

  /**
   * `process_voice`: no `audio` file, or one without a name, is rejected
   * before any transcription; a failed transcription is rejected with the
   * speech service's own error; a transcript goes on to `text_to_sql`
   * exactly as transcribed.
   */
  function VoiceDecision(audio: Option<AudioUpload>, speech: SpeechResult): (d: Decision)
    ensures audio.None? ==> d == Reject(BadRequest, AudioRequired)
    ensures audio.Some? && audio.value.filename == "" ==> d == Reject(BadRequest, NoAudioSelected)
    ensures audio.Some? && audio.value.filename != "" && speech.SpeechFailed? ==> d == Reject(BadRequest, SpeechError(speech.error))
    ensures d.Proceed? <==> audio.Some? && audio.value.filename != "" && speech.Transcribed?
    ensures d.Proceed? ==> d.text == speech.text
  {
    if audio.None? then Reject(BadRequest, AudioRequired)
    else if audio.value.filename == "" then Reject(BadRequest, NoAudioSelected)
    else
      match speech
      case SpeechFailed(error) => Reject(BadRequest, SpeechError(error))
      case Transcribed(text) => Proceed(text)
  }

  /** A request rejected for its upload never depends on what transcription would have given. */
  lemma UploadCheckedBeforeTranscription(audio: Option<AudioUpload>, s1: SpeechResult, s2: SpeechResult)
    requires audio.None? || audio.value.filename == ""
    ensures VoiceDecision(audio, s1) == VoiceDecision(audio, s2)
    ensures VoiceDecision(audio, s1).Reject?
  {
  }

  // ---------------------------------------------------------------------
  // /api/sql

  /** The keywords that make direct SQL be refused, in the order they are checked. */
  const DangerousKeywords: seq<string> := ["DROP", "DELETE", "UPDATE", "INSERT", "ALTER", "CREATE"]

  /** `keyword` occurs at index `i` of `sql` once `sql` is upper-cased, whatever case `sql` uses. */
  predicate OccursUpper(sql: string, keyword: string, i: int) {
    0 <= i && i + |keyword| <= |sql| && Upper(sql[i..i + |keyword|]) == keyword
  }

  /**
   * `execute_direct_sql`: the body must carry a non-blank `sql` field; then
   * the stripped SQL is refused when its upper-cased text contains any of
   * the keywords, and is executed otherwise.
   */
  function DirectSqlDecision(body: Option<map<string, string>>): (d: Decision)
    ensures d == Reject(BadRequest, SqlRequired) <==> body.None? || "sql" !in body.value
    ensures d == Reject(BadRequest, SqlEmpty) <==> body.Some? && "sql" in body.value && Strip(body.value["sql"]) == []
    ensures d.Proceed? <==>
              && body.Some? && "sql" in body.value && Strip(body.value["sql"]) != []
              && forall k :: 0 <= k < |DangerousKeywords| ==> !Contains(Upper(Strip(body.value["sql"])), DangerousKeywords[k])
    ensures d.Proceed? ==> d.text == Strip(body.value["sql"])
    ensures d.Reject? ==> d.status == BadRequest
    ensures d.Reject? && body.Some? && "sql" in body.value && Strip(body.value["sql"]) != [] ==>
              exists k :: 0 <= k < |DangerousKeywords| && d.refusal == Dangerous(DangerousKeywords[k])
                          && Contains(Upper(Strip(body.value["sql"])), DangerousKeywords[k])
  {
    if body.None? || "sql" !in body.value then Reject(BadRequest, SqlRequired)
    else
      var sql := Strip(body.value["sql"]);
      if sql == [] then Reject(BadRequest, SqlEmpty)
      else
        match FirstContained(Upper(sql), DangerousKeywords)
        case Some(k) => Reject(BadRequest, Dangerous(DangerousKeywords[k]))
        case None => Proceed(sql)
  }

  /** A refusal names the first keyword of the list that the upper-cased SQL contains. */
  lemma RefusalNamesFirstKeyword(body: Option<map<string, string>>, k: nat)
    requires body.Some? && "sql" in body.value
    requires Strip(body.value["sql"]) != [] && k < |DangerousKeywords|
    requires Contains(Upper(Strip(body.value["sql"])), DangerousKeywords[k])
    requires forall j :: 0 <= j < k ==> !Contains(Upper(Strip(body.value["sql"])), DangerousKeywords[j])
    ensures DirectSqlDecision(body) == Reject(BadRequest, Dangerous(DangerousKeywords[k]))
  {
    FirstContainedUnique(Upper(Strip(body.value["sql"])), DangerousKeywords, k);
  }

  /**
   * Whatever reaches execution contains none of the keywords in any mix of
   * letter case: no slice of it upper-cases to a keyword.
   */
  lemma ExecutedSqlHasNoKeyword(body: Option<map<string, string>>)
    requires DirectSqlDecision(body).Proceed?
    ensures forall w, i :: w in DangerousKeywords ==> !OccursUpper(DirectSqlDecision(body).text, w, i)
  {
    var sql := DirectSqlDecision(body).text;
    forall w, i | w in DangerousKeywords
      ensures !OccursUpper(sql, w, i)
    {
      if OccursUpper(sql, w, i) {
        UpperSlice(sql, i, i + |w|);
        ContainsWitness(Upper(sql), w, i);
      }
    }
  }

  /** Every keyword starts and ends with a capital letter. */
  lemma KeywordsAreWords()
    ensures forall k :: 0 <= k < |DangerousKeywords| ==>
              var w := DangerousKeywords[k]; |w| > 0 && IsUpperLetter(w[0]) && IsUpperLetter(w[|w| - 1])
  {
  }

  /**
   * The converse on the raw request: SQL in which any keyword occurs, in
   * whatever letter case, is refused; stripping cannot remove a keyword.
   */
  lemma KeywordAnywhereRefused(body: Option<map<string, string>>, k: nat, i: int)
    requires body.Some? && "sql" in body.value
    requires k < |DangerousKeywords| && OccursUpper(body.value["sql"], DangerousKeywords[k], i)
    ensures DirectSqlDecision(body).Reject? && DirectSqlDecision(body).status == BadRequest
    ensures DirectSqlDecision(body).Reject? && DirectSqlDecision(body).refusal.Dangerous?
  {
    var sql := body.value["sql"];
    var w := DangerousKeywords[k];
    var n := |w|;
    KeywordsAreWords();
    assert UpperChar(sql[i]) == w[0] by {
      assert Upper(sql[i..i + n])[0] == UpperChar(sql[i..i + n][0]);
    }
    assert UpperChar(sql[i + n - 1]) == w[n - 1] by {
      assert Upper(sql[i..i + n])[n - 1] == UpperChar(sql[i..i + n][n - 1]);
    }
    assert IsUpperLetter(w[0]) && IsUpperLetter(w[n - 1]);
    assert !IsSpace(sql[i]) && !IsSpace(sql[i + n - 1]);
    UpperOccurrenceSurvivesStrip(sql, w, i);
  }

  /** For instance, a column named `created_at` is enough to refuse a statement. */
  lemma CreatedAtRefused(body: Option<map<string, string>>, i: int)
    requires body.Some? && "sql" in body.value && OccursUpper(body.value["sql"], "CREATED_AT", i)
    ensures DirectSqlDecision(body).Reject? && DirectSqlDecision(body).refusal.Dangerous?
  {
    var sql := body.value["sql"];
    assert sql[i..i + 6] == sql[i..i + 10][..6];
    assert OccursUpper(sql, DangerousKeywords[5], i);
    KeywordAnywhereRefused(body, 5, i);
  }
}
