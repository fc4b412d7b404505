/** How search results become the context section handed to the prompt:
    each document is formatted into a `<context>` fragment with its citation
    title, fragments are measured by the tokenizer, and whole fragments are
    concatenated while the token budget allows. */
module ContextAssembly {
  import opened TokenBudget

  /** A JavaScript value as the data source reads it from a document field or
      from turn memory: `undefined`, `null` or a string. */
  datatype Value = Undefined | Null | Str(s: string)

  /** JavaScript truthiness: `undefined`, `null` and the empty string are falsy;
      every other string, blank ones included, is truthy. */
  predicate Truthy(v: Value)
    ensures Truthy(v) <==> v !in {Undefined, Null, Str("")}
  {
    v.Str? && v.s != ""
  }

  /** The text a template literal produces when it interpolates `v`. */
  function Render(v: Value): string
  {
    match v
    case Undefined => "undefined"
    case Null => "null"
    case Str(s) => s
  }

  /** A search result document, projected onto the two fields the assembly reads. */
  datatype Document = Document(chunk: Value, title: Value)

  const ContextOpen: string := "<context>"
  const ContextClose: string := "</context>"
  const CitationLabel: string := "\n Citation title:"

  /** Wraps a result in the `<context>` delimiters the prompt renderer expects;
      the wrapped text can be read back from between the delimiters. */
  function FormatDocument(result: string): (r: string)
    ensures |r| == |ContextOpen| + |result| + |ContextClose|
    ensures r[..|ContextOpen|] == ContextOpen
    ensures r[|ContextOpen|..|r| - |ContextClose|] == result
    ensures r[|r| - |ContextClose|..] == ContextClose
  {
    ContextOpen + result + ContextClose
  }

  /** The document's text followed by its citation title, as the template
      literal builds it before formatting. */
  function CitedText(d: Document): string
  {
    Render(d.chunk) + CitationLabel + Render(d.title) + "."
  }

  /** The fragment one search result contributes to the context. */
  function Fragment(d: Document): string
  {
    FormatDocument(CitedText(d))
  }

  /** The layout of a fragment, piece by piece: the opening delimiter, the chunk,
      the citation label, the title, a full stop and the closing delimiter. */
  lemma FragmentLayout(d: Document)
    ensures var f, c, t := Fragment(d), Render(d.chunk), Render(d.title);
      var o, l := |ContextOpen|, |CitationLabel|;
      && |f| == o + |c| + l + |t| + 1 + |ContextClose|
      && f[..o] == ContextOpen
      && f[o..o + |c|] == c
      && f[o + |c|..o + |c| + l] == CitationLabel
      && f[o + |c| + l..o + |c| + l + |t|] == t
      && f[o + |c| + l + |t|..] == "." + ContextClose
  {
  }

  /** The fragments of a sequence of results, in result order. */
  function Fragments(docs: seq<Document>): seq<string>
  {
    seq(|docs|, i requires 0 <= i < |docs| => Fragment(docs[i]))
  }

  /** The token count of each fragment, as the tokenizer's encoding length. */
  function Costs(encode: string -> seq<int>, fragments: seq<string>): seq<nat>
  {
    seq(|fragments|, i requires 0 <= i < |fragments| => |encode(fragments[i])|)
  }

  /** Concatenation of fragments, in order. */
  function Concat(fragments: seq<string>): string
  {
    if fragments == [] then "" else fragments[0] + Concat(fragments[1..])
  }

  lemma {:induction false} ConcatAppend(a: seq<string>, b: seq<string>)
    ensures Concat(a + b) == Concat(a) + Concat(b)
  {
    if a == [] {
      assert a + b == b;
    } else {
      assert (a + b)[1..] == a[1..] + b;
      ConcatAppend(a[1..], b);
    }
  }

  /** Appending one more fragment to a prefix appends exactly its text. */
  lemma ConcatSnoc(fragments: seq<string>, i: nat)
    requires i < |fragments|
    ensures Concat(fragments[..i + 1]) == Concat(fragments[..i]) + fragments[i]
  {
    assert fragments[..i + 1] == fragments[..i] + [fragments[i]];
    ConcatAppend(fragments[..i], [fragments[i]]);
    assert Concat([fragments[i]]) == fragments[i] + Concat([]);
  }

  /** The section rendered into the prompt: its text, the tokens it uses, and
      whether that exceeds the budget. */
  datatype Section = Section(output: string, length: nat, tooLong: bool)

  /** The section rendered for a query with results: the whole fragments of the
      results the greedy walk admits, their token total, and `tooLong` computed
      as that total exceeding the budget. The output is a prefix of all the
      fragments joined in order, and with a non-negative budget the section never
      uses more tokens than the budget, so it is never flagged as too long, even
      when results were dropped. */
  function Assemble(docs: seq<Document>, encode: string -> seq<int>, maxTokens: int): (s: Section)
    ensures s.output <= Concat(Fragments(docs))
    ensures maxTokens >= 0 ==> s.length <= maxTokens && !s.tooLong
  {
    var fragments := Fragments(docs);
    var costs := Costs(encode, fragments);
    var k := Included(costs, maxTokens);
    var used := Sum(costs[..k]);
    assert fragments == fragments[..k] + fragments[k..];
    ConcatAppend(fragments[..k], fragments[k..]);
    if maxTokens >= 0 then
      BudgetRespected(costs, maxTokens);
      Section(Concat(fragments[..k]), used, used > maxTokens)
    else
      Section(Concat(fragments[..k]), used, used > maxTokens)
  }

  /** The state of the assembly loop after it admitted the first `i` results:
      `used` is their token total, `output` their fragments joined in order, and
      the greedy count is `i` plus what the walk admits from here on. */
  ghost predicate Admitted(docs: seq<Document>, encode: string -> seq<int>, maxTokens: int, i: nat, used: nat, output: string)
  {
    var fragments := Fragments(docs);
    var costs := Costs(encode, fragments);
    && i <= |docs|
    && used == Sum(costs[..i])
    && output == Concat(fragments[..i])
    && Included(costs, maxTokens) == i + IncludedFrom(costs[i..], used, maxTokens)
  }

  /** The loop starts with nothing admitted. */
  lemma AdmittedStart(docs: seq<Document>, encode: string -> seq<int>, maxTokens: int)
    ensures Admitted(docs, encode, maxTokens, 0, 0, "")
  {
    var costs := Costs(encode, Fragments(docs));
    assert costs[0..] == costs;
  }

  /** One turn of the loop at result `i`: a fragment that does not fit ends the
      walk with the section built so far; one that fits is appended whole. */
  lemma AdmitStep(docs: seq<Document>, encode: string -> seq<int>, maxTokens: int, i: nat, used: nat, output: string)
    requires Admitted(docs, encode, maxTokens, i, used, output) && i < |docs|
    ensures var f := Fragment(docs[i]);
      var tokens := |encode(f)|;
      && (used + tokens > maxTokens ==>
            && Included(Costs(encode, Fragments(docs)), maxTokens) == i
            && Assemble(docs, encode, maxTokens) == Section(output, used, used > maxTokens))
      && (used + tokens <= maxTokens ==>
            Admitted(docs, encode, maxTokens, i + 1, used + tokens, output + f))
  {
    var fragments := Fragments(docs);
    var costs := Costs(encode, fragments);
    assert fragments[i] == Fragment(docs[i]) && costs[i] == |encode(fragments[i])|;
    IncludedFromStep(costs, i, used, maxTokens);
    SumSnoc(costs, i);
    ConcatSnoc(fragments, i);
  }

  /** A loop that admitted every result has built the whole section. */
  lemma AdmittedAll(docs: seq<Document>, encode: string -> seq<int>, maxTokens: int, used: nat, output: string)
    requires Admitted(docs, encode, maxTokens, |docs|, used, output)
    ensures Included(Costs(encode, Fragments(docs)), maxTokens) == |docs|
    ensures Assemble(docs, encode, maxTokens) == Section(output, used, used > maxTokens)
  {
    var costs := Costs(encode, Fragments(docs));
    assert costs[|docs|..] == [];
  }

  /** The output is the in-order concatenation of the whole fragments of a prefix
      of the results, and the length is the token total of exactly those. */
  lemma AssembleIsPrefix(docs: seq<Document>, encode: string -> seq<int>, maxTokens: int)
    ensures var k := Included(Costs(encode, Fragments(docs)), maxTokens);
      && Assemble(docs, encode, maxTokens).output == Concat(Fragments(docs[..k]))
      && Assemble(docs, encode, maxTokens).length == Sum(Costs(encode, Fragments(docs[..k])))
  {
    var fragments := Fragments(docs);
    var costs := Costs(encode, fragments);
    var k := Included(costs, maxTokens);
    assert Fragments(docs[..k]) == fragments[..k];
    assert Costs(encode, Fragments(docs[..k])) == costs[..k];
  }

  /** `tooLong` is set exactly when the budget is negative, and then nothing is
      included. */
  lemma AssembleTooLong(docs: seq<Document>, encode: string -> seq<int>, maxTokens: int)
    ensures Assemble(docs, encode, maxTokens).tooLong <==> maxTokens < 0
    ensures maxTokens < 0 ==> Assemble(docs, encode, maxTokens) == Section("", 0, true)
  {
    var costs := Costs(encode, Fragments(docs));
    if maxTokens < 0 {
      NegativeBudgetAdmitsNothing(costs, maxTokens);
      assert costs[..0] == [];
    }
  }

  /** When every fragment fits together, every result is included, in order. */
  lemma AssembleAllFit(docs: seq<Document>, encode: string -> seq<int>, maxTokens: int)
    requires Sum(Costs(encode, Fragments(docs))) <= maxTokens
    ensures Assemble(docs, encode, maxTokens)
         == Section(Concat(Fragments(docs)), Sum(Costs(encode, Fragments(docs))), false)
  {
    var fragments := Fragments(docs);
    var costs := Costs(encode, fragments);
    AllFitAllIncluded(costs, maxTokens);
    assert fragments[..|docs|] == fragments;
    assert costs[..|docs|] == costs;
  }

  /** The walk stops at the first result whose fragment does not fit into what is
      left of the budget; a result whose fragment alone exceeds the budget is
      never included, and neither is any result after it. */
  lemma AssembleStopsAtFirstMisfit(docs: seq<Document>, encode: string -> seq<int>, maxTokens: int, i: nat)
    requires i < |docs|
    ensures var k := Included(Costs(encode, Fragments(docs)), maxTokens);
      k < |docs| ==>
        Assemble(docs, encode, maxTokens).length + |encode(Fragment(docs[k]))| > maxTokens
    ensures |encode(Fragment(docs[i]))| > maxTokens ==>
      Included(Costs(encode, Fragments(docs)), maxTokens) <= i
  {
    var costs := Costs(encode, Fragments(docs));
    var k := Included(costs, maxTokens);
    IncludedStops(costs, maxTokens);
    if k < |docs| {
      SumSnoc(costs, k);
    }
    if costs[i] > maxTokens {
      OversizedStops(costs, maxTokens, i);
    }
  }

  /** Two results of 5 tokens each: a budget of 8 keeps only the first, with
      `tooLong` false; a budget of 12 keeps both, in order. */
  lemma AssembleTwoResults(a: Document, b: Document, encode: string -> seq<int>)
    requires |encode(Fragment(a))| == 5 && |encode(Fragment(b))| == 5
    ensures Assemble([a, b], encode, 8) == Section(Fragment(a), 5, false)
    ensures Assemble([a, b], encode, 12) == Section(Fragment(a) + Fragment(b), 10, false)
  {
    var fragments := Fragments([a, b]);
    var costs := Costs(encode, fragments);
    assert costs == [5, 5];
    assert costs[1..] == [5] && costs[1..][1..] == [];
    assert IncludedFrom(costs[1..], 5, 8) == 0;
    assert IncludedFrom(costs[1..], 5, 12) == 1 + IncludedFrom([], 10, 12);
    assert Included(costs, 8) == 1;
    assert Included(costs, 12) == 2;
    assert Sum(costs[..1]) == 5 + Sum([]);
    assert Sum(costs[..2]) == 5 + Sum([5]) by {
      assert costs[..2][1..] == [5];
    }
    assert fragments == [Fragment(a), Fragment(b)] && fragments[1..] == [Fragment(b)];
    assert Concat([Fragment(b)]) == Fragment(b) + Concat([]);
    assert fragments[..1] == [Fragment(a)];
    assert fragments[..2] == fragments;
    assert costs[..1] == [5];
    assert costs[..2] == costs;
  }
}
