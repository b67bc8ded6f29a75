/** Tool 1 of agent/tools.py, `search_eda_kb`: its input schema
    `GroundingInput` as a validator, the `where` filter, and the formatting
    of the hits into the text handed back to the model. The vector store
    (embedding and nearest-neighbour query) is an oracle. */
module GroundingTool {
  import opened Wrappers
  import opened PyStr
  import opened Tools

  /** Arguments of `search_eda_kb` as the model sends them; `None` is an absent field. */
  datatype GroundingArgs = GroundingArgs(query: Option<string>, topK: Option<int>, topic: Option<string>)

  /** A validated `GroundingInput`. */
  datatype GroundingInput = GroundingInput(query: string, topK: int, topic: Option<string>)

  const QueryMinLength: nat := 3
  const TopKDefault: int := 3
  const TopKMin: int := 1
  const TopKMax: int := 8

  /** The field constraints of `GroundingInput`. */
  predicate ValidGrounding(g: GroundingInput) {
    |g.query| >= QueryMinLength && TopKMin <= g.topK <= TopKMax
  }

  /** Every constraint of `GroundingInput` the arguments break, in field order. */
  function GroundingViolations(args: GroundingArgs): seq<Violation> {
    (match args.query
     case None => [Missing("query")]
     case Some(q) => if |q| < QueryMinLength then [TooShort("query", QueryMinLength)] else [])
    + (match args.topK
       case None => []
       case Some(k) =>
         if k < TopKMin then [BelowMinimum("top_k", TopKMin)]
         else if k > TopKMax then [AboveMaximum("top_k", TopKMax)]
         else [])
  }

  /** Validation of `search_eda_kb`'s arguments against `GroundingInput`:
      it succeeds exactly when the query is present with at least three
      characters and `top_k`, if given, is between 1 and 8; `top_k` defaults
      to 3 and `topic` is passed through. */
  function ValidateGrounding(args: GroundingArgs): (r: Result<GroundingInput, seq<Violation>>)
    ensures r.Success? <==>
      && args.query.Some? && |args.query.value| >= QueryMinLength
      && (args.topK.None? || TopKMin <= args.topK.value <= TopKMax)
    ensures r.Success? ==>
      && ValidGrounding(r.value)
      && r.value == GroundingInput(args.query.value, args.topK.GetOr(TopKDefault), args.topic)
    ensures r.Failure? ==> r.error != []
  {
    var violations := GroundingViolations(args);
    if violations == [] then
      Success(GroundingInput(args.query.value, args.topK.GetOr(TopKDefault), args.topic))
    else
      Failure(violations)
  }

  /** A metadata dictionary of a stored chunk. */
  type Meta = map<string, string>

  /** The first (and only) result list of a vector-store query: the
      documents and their metadata, either possibly `None`. */
  datatype QueryHits = QueryHits(documents: seq<Option<string>>, metadatas: seq<Option<Meta>>)

  /** The vector store: embeds the query and returns the `n_results` nearest
      chunks that satisfy the `where` filter. It is an oracle here. */
  type KnowledgeBase = (string, int, Option<Meta>) -> QueryHits

  /** `{"topic": topic} if topic else None`: a filter exactly when a
      non-empty topic is given, and then it constrains only the topic. */
  function WhereFilter(topic: Option<string>): (w: Option<Meta>)
    ensures w.Some? <==> topic.Some? && topic.value != ""
    ensures w.Some? ==> w.value.Keys == {"topic"} && w.value["topic"] == topic.value
  {
    if topic.Some? && topic.value != "" then Some(map["topic" := topic.value]) else None
  }

  const NoGrounding: string := "No relevant grounding found in KB."
  const GroundingHeader: string := "GROUNDING RESULTS:"
  const Unknown: string := "unknown"

  /** `(m or {}).get(key, "unknown")`. */
  function MetaField(m: Option<Meta>, key: string): string {
    if m.Some? && key in m.value then m.value[key] else Unknown
  }

  /** A field is the stored value when the metadata has the key, and
      `"unknown"` when the metadata is `None` or lacks the key. */
  lemma MetaFieldValue(m: Option<Meta>, key: string)
    ensures m.Some? && key in m.value ==> MetaField(m, key) == m.value[key]
    ensures m.None? || key !in m.value ==> MetaField(m, key) == Unknown
  {
  }

  /** `(d or "").strip().replace("\n", " ")`: the stripped document on one line. */
  function Snippet(d: Option<string>): string {
    ReplaceChar(Strip(d.GetOr("")), '\n', ' ')
  }

  /** The snippet is the stripped document (empty for `None`) with each
      newline turned into a space and nothing else changed. */
  lemma SnippetIsStrippedDocument(d: Option<string>)
    ensures '\n' !in Snippet(d) && IsStripped(Snippet(d))
    ensures var doc := Strip(d.GetOr(""));
      && |Snippet(d)| == |doc|
      && forall i :: 0 <= i < |doc| ==> Snippet(d)[i] == (if doc[i] == '\n' then ' ' else doc[i])
    ensures d.None? ==> Snippet(d) == ""
  {
  }

  /** The part of a result line before the snippet:
      `"{i}) ({doc_type}, topic={tpc}, source={src}) "`. */
  function Label(i: nat, m: Option<Meta>): string {
    DecimalString(i) + ") (" + MetaField(m, "doc_type") + ", topic=" + MetaField(m, "topic")
      + ", source=" + MetaField(m, "source") + ") "
  }

  /** `f"{i}) ({doc_type}, topic={tpc}, source={src}) {snippet}"`. */
  function ResultLine(i: nat, d: Option<string>, m: Option<Meta>): string {
    Label(i, m) + Snippet(d)
  }

  /** The first `n` elements of
      `[f(i, x, y) for i, (x, y) in enumerate(zip(xs, ys), start=1)]`. */
  function ZipNumbered<X, Y, Z>(f: (nat, X, Y) -> Z, xs: seq<X>, ys: seq<Y>, n: nat): (r: seq<Z>)
    requires n <= |xs| && n <= |ys|
    ensures |r| == n
  {
    if n == 0 then [] else ZipNumbered(f, xs, ys, n - 1) + [f(n, xs[n - 1], ys[n - 1])]
  }

  /** The i-th element (from 0) is `f` applied to number i + 1 and the i-th pair. */
  lemma {:induction false} ZipNumberedAt<X, Y, Z>(f: (nat, X, Y) -> Z, xs: seq<X>, ys: seq<Y>, n: nat)
    requires n <= |xs| && n <= |ys|
    ensures forall i :: 0 <= i < n ==> ZipNumbered(f, xs, ys, n)[i] == f(i + 1, xs[i], ys[i])
  {
    if n > 0 {
      ZipNumberedAt(f, xs, ys, n - 1);
    }
  }

  /** The result lines, numbered from 1, one per pair that `zip` forms of
      the documents and their metadata (it stops at the shorter list). */
  function ResultLines(docs: seq<Option<string>>, metas: seq<Option<Meta>>): (ls: seq<string>)
    ensures |ls| == Min(|docs|, |metas|)
  {
    ZipNumbered(ResultLine, docs, metas, Min(|docs|, |metas|))
  }

  /** The loop of `search_eda_kb`: walks `enumerate(zip(xs, ys), start=1)`
      and appends `f(i, x, y)` to `lines` for each numbered pair. */
  method AppendZipNumbered<X, Y>(lines: seq<string>, f: (nat, X, Y) -> string, xs: seq<X>, ys: seq<Y>)
    returns (out: seq<string>)
    ensures out == lines + ZipNumbered(f, xs, ys, Min(|xs|, |ys|))
  {
    out := lines;
    var n := Min(|xs|, |ys|);
    var i := 0;
    while i < n
      invariant 0 <= i <= n
      invariant out == lines + ZipNumbered(f, xs, ys, i)
    {
      out := out + [f(i + 1, xs[i], ys[i])];
      i := i + 1;
    }
  }

  /** The formatting half of `search_eda_kb`: the no-results sentinel when
      there are no documents, otherwise the header and one line per result,
      joined by newlines. */
  method FormatGrounding(docs: seq<Option<string>>, metas: seq<Option<Meta>>) returns (text: string)
    ensures docs == [] ==> text == NoGrounding
    ensures docs != [] ==> text == Join([GroundingHeader] + ResultLines(docs, metas), "\n")
  {
    if docs == [] {
      return NoGrounding;
    }
    var outLines := AppendZipNumbered([GroundingHeader], ResultLine, docs, metas);
    text := Join(outLines, "\n");
  }

  /** No value of the metadata contains a newline. */
  predicate SingleLineMeta(m: Option<Meta>) {
    m.Some? ==> forall k :: k in m.value ==> '\n' !in m.value[k]
  }

  /** Concatenation keeps a string free of newlines. */
  lemma NoNewlineInConcat(a: string, b: string)
    requires '\n' !in a && '\n' !in b
    ensures '\n' !in a + b
  {
  }

  /** A result line is one line when the metadata values are. */
  lemma ResultLineIsOneLine(i: nat, d: Option<string>, m: Option<Meta>)
    requires SingleLineMeta(m)
    ensures '\n' !in ResultLine(i, d, m)
  {
    var num := DecimalString(i);
    assert '\n' !in num;
    assert '\n' !in Unknown;
    var docType, topic, source := MetaField(m, "doc_type"), MetaField(m, "topic"), MetaField(m, "source");
    MetaFieldValue(m, "doc_type");
    MetaFieldValue(m, "topic");
    MetaFieldValue(m, "source");
    SnippetIsStrippedDocument(d);
    NoNewlineInConcat(num, ") (");
    NoNewlineInConcat(num + ") (", docType);
    NoNewlineInConcat(num + ") (" + docType, ", topic=");
    NoNewlineInConcat(num + ") (" + docType + ", topic=", topic);
    NoNewlineInConcat(num + ") (" + docType + ", topic=" + topic, ", source=");
    NoNewlineInConcat(num + ") (" + docType + ", topic=" + topic + ", source=", source);
    NoNewlineInConcat(num + ") (" + docType + ", topic=" + topic + ", source=" + source, ") ");
    NoNewlineInConcat(Label(i, m), Snippet(d));
  }

  /** Every result line is one line when the metadata values are. */
  lemma ResultLinesAreOneLine(docs: seq<Option<string>>, metas: seq<Option<Meta>>)
    requires forall m :: m in metas ==> SingleLineMeta(m)
    ensures forall line :: line in ResultLines(docs, metas) ==> '\n' !in line
  {
    var results := ResultLines(docs, metas);
    ZipNumberedAt(ResultLine, docs, metas, Min(|docs|, |metas|));
    forall i | 0 <= i < |results|
      ensures '\n' !in results[i]
    {
      assert metas[i] in metas;
      ResultLineIsOneLine(i + 1, docs[i], metas[i]);
    }
  }

  /** When documents were found and no metadata value holds a newline, the
      text splits on newlines into the header followed by exactly
      `min(|docs|, |metas|)` result lines, the i-th numbered i. */
  lemma GroundingTextLines(docs: seq<Option<string>>, metas: seq<Option<Meta>>)
    requires docs != []
    requires forall m :: m in metas ==> SingleLineMeta(m)
    ensures var lines := Split(Join([GroundingHeader] + ResultLines(docs, metas), "\n"), "\n");
      && |lines| == 1 + Min(|docs|, |metas|)
      && lines[0] == GroundingHeader
      && forall i :: 1 <= i < |lines| ==> lines[i] == ResultLine(i, docs[i - 1], metas[i - 1])
  {
    var results := ResultLines(docs, metas);
    ZipNumberedAt(ResultLine, docs, metas, Min(|docs|, |metas|));
    ResultLinesAreOneLine(docs, metas);
    assert '\n' !in GroundingHeader;
    SplitJoin([GroundingHeader] + results, '\n');
  }

  /** `search_eda_kb(query, top_k, topic)`: queries the knowledge base with
      the topic filter and formats what it returns. */
  method SearchEdaKb(kb: KnowledgeBase, query: string, topK: int := TopKDefault, topic: Option<string> := None)
    returns (text: string)
    ensures var hits := kb(query, topK, WhereFilter(topic));
      text == if hits.documents == [] then NoGrounding
              else Join([GroundingHeader] + ResultLines(hits.documents, hits.metadatas), "\n")
  {
    var hits := kb(query, topK, WhereFilter(topic));
    text := FormatGrounding(hits.documents, hits.metadatas);
  }

  /** Calling the search tool: the arguments are validated against
      `GroundingInput` first, and the search runs only on valid ones, with
      `top_k` defaulted. */
  method InvokeSearchEdaKb(kb: KnowledgeBase, args: GroundingArgs) returns (r: Result<string, seq<Violation>>)
    ensures r.Failure? <==> ValidateGrounding(args).Failure?
    ensures r.Failure? ==> r.error == ValidateGrounding(args).error
    ensures r.Success? ==>
      var input := ValidateGrounding(args).value;
      var hits := kb(input.query, input.topK, WhereFilter(input.topic));
      r.value == if hits.documents == [] then NoGrounding
                 else Join([GroundingHeader] + ResultLines(hits.documents, hits.metadatas), "\n")
  {
    match ValidateGrounding(args)
    case Failure(violations) =>
      r := Failure(violations);
    case Success(input) =>
      var text := SearchEdaKb(kb, input.query, input.topK, input.topic);
      r := Success(text);
  }
}
