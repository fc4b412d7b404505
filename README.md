# Azure AI Search context data source, modelled in Dafny

The repository is a chat bot whose prompts are grounded in documents held in an
Azure AI Search index. Its one piece of real logic is the data source
`AzureAISearchDataSource` (`src/app/azureAISearchDataSource.ts`). On each turn,
`renderData` does the following:

1. It reads the user's input from turn memory (`temp.input`) and returns an empty
   section when that input is falsy.
2. It embeds the input through the Azure OpenAI embedding service
   (`getEmbeddingVector`). A status other than `"success"`, or no output, is thrown
   as an error.
3. It runs a hybrid keyword and vector search. When the response has no `results`,
   it returns an empty section.
4. It formats each result as `<context>{chunk}\n Citation title:{title}.</context>`.
   It measures each fragment with the prompt tokenizer and appends whole fragments
   while `usedTokens + tokens <= maxTokens`. It stops reading the stream at the
   first fragment that does not fit.
5. It returns `{output, length, tooLong}`, where `tooLong` is `usedTokens > maxTokens`.

The model has four modules:

- `Wrappers` (`wrappers.dfy`): `Option` and `Result`.
- `TokenBudget` (`token_budget.dfy`): the greedy admission policy stated on token
  costs alone. `Included` counts the admitted costs. `StopsAt` is a declarative
  description of the stopping point, and the two are proved equal.
- `ContextAssembly` (`context_assembly.dfy`): JavaScript values and their
  truthiness, template-literal rendering of `undefined` and `null`,
  `formatDocument`, fragments, and `Assemble`, the specification of the rendered
  section.
- `AzureAISearch` (`data_source.dfy`): options, the embedding call and its check,
  `AssembleResults`, and `RenderData`. `AssembleResults` is a method whose `while`
  loop mirrors the `for await` loop. It is proved equal to `Assemble`, one loop
  turn at a time through the `Admitted` loop-state predicate. `RenderData` reads
  the input, embeds it, searches, and hands the results to `AssembleResults`.

External services are function parameters. These are the tokenizer (`encode`,
whose result length is the token count), the embedding call and the search call.
The embedding call and the search call may each throw, and the model returns
that error.
`RenderData` also returns the list of external calls it made and the number of
results it read from the stream. This makes it possible to state "no network
call" and "stops reading early".

On these points the model follows the code as written:

- Only a falsy input short-circuits: `undefined`, `null` or `""`. A blank input
  such as `"   "` is truthy and is embedded and searched.
- `tooLong` is `usedTokens > maxTokens` after the loop. It is not a "something was
  dropped" flag, so it is false for every non-negative budget even when results
  were dropped (`AssembleTwoResults`: budget 8, one of two results kept, `tooLong`
  false). It is true only for a negative budget (`AssembleTooLong`).
- The embedding check rejects an absent output but not an empty one. With an
  empty vector list, `output[0]` is `undefined`, and that value is passed on as
  the query vector (`Success(None)`).

## Model

| member | source | states |
|---|---|---|
| TokenBudget.IncludedFrom | src/app/azureAISearchDataSource.ts:144-155 | the number of results the loop admits when `used` tokens are already spent; it is never more than the number of results |
| TokenBudget.Included | src/app/azureAISearchDataSource.ts:142-155 | the number of results the loop admits starting from `usedTokens = 0`; it is never more than the number of results |
| TokenBudget.IncludedFromStep | src/app/azureAISearchDataSource.ts:149-151 | one step of the walk: a result that does not fit ends admission, and one that fits is admitted before the walk continues with the tokens added |
| TokenBudget.IncludedFromStops | src/app/azureAISearchDataSource.ts:142-155 | the greedy walk starting from `used` tokens admits only prefixes that fit on top of `used`, and the first cost it leaves out would overflow the budget |
| TokenBudget.IncludedStops | src/app/azureAISearchDataSource.ts:142-155 | the number of results the loop admits satisfies the declarative stopping description: every admitted prefix fits, and one more result would not |
| TokenBudget.IncludedCharacterized | src/app/azureAISearchDataSource.ts:144-155 | a count is the declarative stopping point if and only if it is the loop's count, so the stopping point is unique |
| TokenBudget.BudgetRespected | src/app/azureAISearchDataSource.ts:149-154 | for a non-negative budget the admitted token total never exceeds the budget |
| TokenBudget.AllFitAllIncluded | src/app/azureAISearchDataSource.ts:144-155 | when the total of all costs is within the budget, every cost is admitted |
| TokenBudget.OversizedStops | src/app/azureAISearchDataSource.ts:149-151 | a cost that alone exceeds the budget is never admitted, and neither is anything after it |
| TokenBudget.NegativeBudgetAdmitsNothing | src/app/azureAISearchDataSource.ts:149-151 | a negative budget admits nothing, because even the first cost overflows |
| TokenBudget.LaterFitNotAdmitted | src/app/azureAISearchDataSource.ts:149-151 | the `break` ends admission: with costs 5, 9, 1 and budget 8 only the first is admitted, although the third would still fit |
| ContextAssembly.Truthy | src/app/azureAISearchDataSource.ts:102 | a value passes `!query` exactly when it is none of `undefined`, `null` and `""`, so a blank string is truthy |
| ContextAssembly.FormatDocument | src/app/azureAISearchDataSource.ts:165-167 | the result is the text between `<context>` and `</context>`, and the text can be read back from between the delimiters |
| ContextAssembly.FragmentLayout | src/app/azureAISearchDataSource.ts:146 | a fragment consists of, at fixed offsets, the opening delimiter, the rendered chunk, `\n Citation title:`, the rendered title, `.` and the closing delimiter |
| ContextAssembly.AssembleIsPrefix | src/app/azureAISearchDataSource.ts:142-155 | the output is the in-order concatenation of the whole fragments of a prefix of the results, `length` is the token total of exactly those fragments, and the output is a prefix of the concatenation of all fragments |
| ContextAssembly.Assemble | src/app/azureAISearchDataSource.ts:142-157 | the section for a list of results: its output is a prefix of all fragments joined in order, and for a non-negative budget `length <= maxTokens` and `tooLong` is false, even when results were dropped |
| ContextAssembly.AdmittedStart | src/app/azureAISearchDataSource.ts:142-143 | the loop starts with no tokens used, empty text, and the whole walk still ahead |
| ContextAssembly.AdmitStep | src/app/azureAISearchDataSource.ts:146-154 | one loop turn: a fragment that does not fit ends the walk with the section built so far, and a fragment that fits is appended whole and its tokens are added |
| ContextAssembly.AdmittedAll | src/app/azureAISearchDataSource.ts:144-157 | a loop that admitted every result has built the whole section |
| ContextAssembly.AssembleTooLong | src/app/azureAISearchDataSource.ts:157 | `tooLong` holds exactly when the budget is negative, and then the section is empty with length 0 |
| ContextAssembly.AssembleAllFit | src/app/azureAISearchDataSource.ts:144-155 | when all fragments fit together, the output is every fragment in result order and `length` is their total |
| ContextAssembly.AssembleStopsAtFirstMisfit | src/app/azureAISearchDataSource.ts:149-151 | the first result left out would overflow the budget on top of what is used, and a result whose fragment alone exceeds the budget is excluded along with everything after it |
| ContextAssembly.AssembleTwoResults | src/app/azureAISearchDataSource.ts:142-157 | two 5-token results: budget 8 keeps only the first with `tooLong` false, and budget 12 keeps both in order with length 10 |
| AzureAISearch.AssembleResults | src/app/azureAISearchDataSource.ts:142-157 | the loop's section equals `Assemble`; it reads one result past the admitted ones when it stops early, and every result otherwise |
| AzureAISearch.AzureAISearchDataSource.GetEmbeddingVector | src/app/azureAISearchDataSource.ts:174-187 | an error thrown by the embedding call for the configured deployment is passed on; otherwise the result fails if and only if the status is not "success" or the output is absent, with the fixed message naming the text, and otherwise it is the first vector, which is `undefined` for an empty output |
| AzureAISearch.AzureAISearchDataSource.RenderData | src/app/azureAISearchDataSource.ts:100-158 | the input is read from `temp.input`, where an unset path reads as `undefined`; a falsy input gives the empty section with no external call; an embedding failure, whether thrown by the call or found by the check, is thrown before any search; a search error is rethrown; absent results give the empty section; otherwise the section equals `Assemble`, the stream is read only up to the first result that does not fit, and a non-negative budget is respected |

## Left out

- The network calls to Azure OpenAI and Azure AI Search, and the construction of
  their clients and credentials (src/app/azureAISearchDataSource.ts:79-88,
  175-181). They are parameters of `RenderData`. The constructor only records the
  name and the options, so the data source is a plain value holding both.
- The search options: the searched fields, the projected fields including
  `text_vector`, and `kNearestNeighborsCount: 2`. The remote service ranks with
  them; the client does no ranking of its own, so the search parameter stands for
  the service together with those options.
- Embedding vectors are floating-point data that the data source never inspects.
  They are modelled as `seq<real>` and passed through.
- The `console.log` calls and the `process.env` reads. They are diagnostics with
  no effect on the result.
- The asynchronous, paged result stream. It is a finite sequence read in order.
  An error thrown while paging, after some results were read, is not modelled.
- RenderData: it models only string, `null` or missing values for `temp.input`. A
  non-string value (a number, say) is cast without a check in the source and is
  not representable here.
- RenderData: `maxTokens` is an integer. A fractional JavaScript number is not
  modelled.
- The document fields `chunk_id`, `parent_id` and `text_vector`. Nothing in the
  data source reads them.
- src/indexers/setup.ts, the offline job that creates the index and uploads
  documents. It is I/O plumbing, and its helpers in `./utils` are not part of
  this model.
- src/app/app.ts, the bot's wiring of model, prompts, planner and data source. It
  has no algorithmic content.
