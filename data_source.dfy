/** The Azure AI Search data source: per conversation turn it reads the user's
    input, embeds it, runs a hybrid (keyword plus vector) search, and renders the
    results into a token-bounded context section.

    The embedding service, the search service and the tokenizer are outside this
    model; they are passed in as functions, and `RenderData` reports the external
    calls it makes so that what it does not call can be stated. */
module AzureAISearch {
  import opened Wrappers
  import opened TokenBudget
  import opened ContextAssembly

  /** An embedding vector; the data source passes it on without inspecting it. */
  type Vector = seq<real>

  /** Options for creating the data source. */
  datatype Options = Options(
    name: string,
    indexName: string,
    azureOpenAIApiKey: string,
    azureOpenAIEndpoint: string,
    azureOpenAIEmbeddingDeploymentName: string,
    azureAISearchApiKey: string,
    azureAISearchEndpoint: string)

  /** What the embedding service answers: a status, and the vectors (one per
      input) when it has any. */
  datatype EmbeddingsResponse = EmbeddingsResponse(status: string, output: Option<seq<Vector>>)

  /** What the search service answers: the stream of result documents, which may
      be absent. */
  datatype SearchResults = SearchResults(results: Option<seq<Document>>)

  /** A thrown error, with its message. */
  datatype Error = Error(message: string)

  /** An external call the data source makes. */
  datatype Call =
    | CreateEmbeddings(deployment: string, input: string)
    | Search(searchText: string, vector: Option<Vector>)

  /** The memory path that holds the user's input for the turn. */
  const InputPath: string := "temp.input"

  /** Reading a memory path; a path that was never set reads as `undefined`. */
  function GetValue(memory: map<string, Value>, path: string): Value
  {
    if path in memory then memory[path] else Undefined
  }

  /** The message thrown when no embedding could be obtained for `text`. */
  function EmbeddingFailureMessage(text: string): string
  {
    "Failed to generate embeddings for description: " + text
  }

  /** The empty section, rendered when there is nothing to search for or nothing found. */
  const EmptySection: Section := Section("", 0, false)

  /** Reads the stream of search results in order and concatenates their
      fragments while the token budget allows, stopping at the first fragment
      that does not fit. Returns the section and how many results were read. */
  method AssembleResults(docs: seq<Document>, encode: string -> seq<int>, maxTokens: int)
    returns (s: Section, pulled: nat)
    ensures s == Assemble(docs, encode, maxTokens)
    ensures var k := Included(Costs(encode, Fragments(docs)), maxTokens);
      && (k < |docs| ==> pulled == k + 1)
      && (k == |docs| ==> pulled == k)
  {
    var usedTokens: nat := 0;
    var doc := "";
    var i := 0;
    AdmittedStart(docs, encode, maxTokens);
    while i < |docs|
      invariant Admitted(docs, encode, maxTokens, i, usedTokens, doc)
    {
      var formattedResult := FormatDocument(CitedText(docs[i]));
      var tokens := |encode(formattedResult)|;
      AdmitStep(docs, encode, maxTokens, i, usedTokens, doc);
      if usedTokens + tokens > maxTokens {
        // the result just read is the last one taken from the stream
        return Section(doc, usedTokens, usedTokens > maxTokens), i + 1;
      }
      doc := doc + formattedResult;
      usedTokens := usedTokens + tokens;
      i := i + 1;
    }
    AdmittedAll(docs, encode, maxTokens, usedTokens, doc);
    s, pulled := Section(doc, usedTokens, usedTokens > maxTokens), i;
  }

  datatype AzureAISearchDataSource = AzureAISearchDataSource(name: string, options: Options)
  {
    /** Asks the embedding service, under the configured deployment, for the
        embedding of `text`. An error thrown by the call is passed on. A status
        other than "success", or no output at all, is an error; otherwise the
        first vector is the query vector. An output with no vectors passes the
        check, and its first element is then `undefined` (None). */
    function GetEmbeddingVector(
      createEmbeddings: (string, string) -> Result<EmbeddingsResponse, Error>,
      text: string): (r: Result<Option<Vector>, Error>)
      ensures var answer := createEmbeddings(options.azureOpenAIEmbeddingDeploymentName, text);
        && (answer.Failure? ==> r == Failure(answer.error))
        && (answer.Success? ==>
              var response := answer.value;
              && (r.Failure? <==> response.status != "success" || response.output.None?)
              && (r.Failure? ==> r.error == Error(EmbeddingFailureMessage(text)))
              && (r.Success? ==>
                    (r.value.Some? <==> |response.output.value| > 0)
                    && (r.value.Some? ==> r.value.value == response.output.value[0])))
    {
      var answer := createEmbeddings(options.azureOpenAIEmbeddingDeploymentName, text);
      if answer.Failure? then
        Failure(answer.error)
      else
        var response := answer.value;
        if response.status != "success" || response.output.None? then
          Failure(Error(EmbeddingFailureMessage(text)))
        else if |response.output.value| == 0 then
          Success(None)
        else
          Success(Some(response.output.value[0]))
    }

    /** Renders the data source for one turn.

        `memory` holds the turn's state, `encode` is the tokenizer, `maxTokens`
        the budget; `createEmbeddings` and `search` stand for the two network
        services, either of which may throw. Besides the result it returns the
        external calls made, in order, and how many results were read from the
        result stream. */
    method RenderData(
      memory: map<string, Value>,
      encode: string -> seq<int>,
      maxTokens: int,
      createEmbeddings: (string, string) -> Result<EmbeddingsResponse, Error>,
      search: (string, Option<Vector>) -> Result<SearchResults, Error>)
      returns (r: Result<Section, Error>, calls: seq<Call>, pulled: nat)
      // A falsy input renders nothing and calls nothing; a blank input is truthy.
      ensures !Truthy(GetValue(memory, InputPath)) ==>
        r == Success(EmptySection) && calls == [] && pulled == 0
      // A truthy input is embedded first; a failed embedding is thrown before any search.
      ensures Truthy(GetValue(memory, InputPath)) ==>
        var query := GetValue(memory, InputPath).s;
        var embedCall := CreateEmbeddings(options.azureOpenAIEmbeddingDeploymentName, query);
        var embedded := GetEmbeddingVector(createEmbeddings, query);
        && (embedded.Failure? ==> r == Failure(embedded.error) && calls == [embedCall] && pulled == 0)
        && (embedded.Success? ==> calls == [embedCall, Search(query, embedded.value)])
      // After a search: its error is rethrown, absent results render nothing,
      // and results are assembled greedily within the budget, reading the stream
      // only up to the first result that does not fit.
      ensures Truthy(GetValue(memory, InputPath)) ==>
        var query := GetValue(memory, InputPath).s;
        var embedded := GetEmbeddingVector(createEmbeddings, query);
        embedded.Success? ==>
          var found := search(query, embedded.value);
          && (found.Failure? ==> r == Failure(found.error) && pulled == 0)
          && (found.Success? && found.value.results.None? ==> r == Success(EmptySection) && pulled == 0)
          && (found.Success? && found.value.results.Some? ==>
                var docs := found.value.results.value;
                var k := Included(Costs(encode, Fragments(docs)), maxTokens);
                && r == Success(Assemble(docs, encode, maxTokens))
                && (k < |docs| ==> pulled == k + 1)
                && (k == |docs| ==> pulled == k))
      // The budget is respected whenever it is not negative.
      ensures r.Success? && maxTokens >= 0 ==> r.value.length <= maxTokens && !r.value.tooLong
    {
      var input := GetValue(memory, InputPath);
      if !Truthy(input) {
        return Success(EmptySection), [], 0;
      }
      var query := input.s;

      // hybrid search
      calls := [CreateEmbeddings(options.azureOpenAIEmbeddingDeploymentName, query)];
      var embedded := GetEmbeddingVector(createEmbeddings, query);
      if embedded.Failure? {
        return Failure(embedded.error), calls, 0;
      }
      var queryVector := embedded.value;
      calls := calls + [Search(query, queryVector)];
      var found := search(query, queryVector);
      if found.Failure? {
        return Failure(found.error), calls, 0;
      }
      if found.value.results.None? {
        return Success(EmptySection), calls, 0;
      }
      var section;
      section, pulled := AssembleResults(found.value.results.value, encode, maxTokens);
      r := Success(section);
    }
  }
}
