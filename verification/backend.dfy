/** The text-shaping logic of the backend's `/process` handler (app.py) that
    does not depend on the natural-language toolkit: the empty-text guard, the
    stemmer dispatch, the stop-word filter, the word-frequency table and the
    fallback summariser. The toolkit itself (word tokenizer, stemmers, stop
    list, lower-casing) enters as opaque parameters. */
module Backend {
  import opened Wrappers
  import opened Seqs
  import opened PyStr

  // ---------------------------------------------------------------- summary

  /** How many sentences the fallback summariser keeps. */
  const SummarySentences: nat := 3

  /** The fallback `summarize(text)`: split on '.', and when there are more
      than three pieces keep the first three, joined by ". " and closed by a
      final '.'; otherwise return the text unchanged. */
  function Summarize(text: string): (summary: string)
    ensures multiset(text)['.'] < SummarySentences ==> summary == text
    ensures multiset(text)['.'] >= SummarySentences ==>
      && |summary| > 0 && summary[|summary| - 1] == '.'
      && multiset(summary)['.'] == SummarySentences
      && var pieces := Split(text, '.');
         Split(summary, '.') == [pieces[0], " " + pieces[1], " " + pieces[2], ""]
  {
    var pieces := Split(text, '.');
    if |pieces| > SummarySentences then
      var summary := Join(pieces[..SummarySentences], ". ") + ".";
      SummaryPieces(pieces, summary);
      summary
    else text
  }

  /** The summary of more than three pieces is those three pieces rejoined by
      '.', each after the first carrying the joining space. */
  lemma SummaryPieces(pieces: seq<string>, summary: string)
    requires |pieces| > SummarySentences
    requires forall i :: 0 <= i < |pieces| ==> '.' !in pieces[i]
    requires summary == Join(pieces[..SummarySentences], ". ") + "."
    ensures Split(summary, '.') == [pieces[0], " " + pieces[1], " " + pieces[2], ""]
    ensures multiset(summary)['.'] == SummarySentences
    ensures |summary| > 0 && summary[|summary| - 1] == '.'
  {
    var a, b, c := pieces[0], pieces[1], pieces[2];
    assert pieces[..3] == [a, b, c];
    SummaryShape(a, b, c);
    var parts := [a, " " + b, " " + c, ""];
    assert '.' !in a && '.' !in b && '.' !in c;
    assert forall i :: 0 <= i < |parts| ==> '.' !in parts[i];
    SplitJoin(parts, '.');
  }

  /** Joining three pieces with ". " and closing with '.' is the same as
      joining the pieces, spaced, and an empty tail with '.'. */
  lemma SummaryShape(a: string, b: string, c: string)
    ensures Join([a, b, c], ". ") + "." == Join([a, " " + b, " " + c, ""], ".")
  {
    JoinCons([a, b, c], ". ");
    JoinCons([b, c], ". ");
    assert [a, b, c][1..] == [b, c] && [b, c][1..] == [c];
    var parts := [a, " " + b, " " + c, ""];
    JoinCons(parts, ".");
    JoinCons(parts[1..], ".");
    JoinCons(parts[2..], ".");
    assert parts[1..][1..] == parts[2..] && parts[2..][1..] == [""];
    assert ". " == "." + " ";
  }

  /** What the summary keeps is read off the text: the first three sentences
      and their full stops are, without the inserted spaces, a prefix of the
      text. */
  lemma SummaryComesFromPrefix(text: string)
    requires multiset(text)['.'] >= SummarySentences
    ensures var p := Split(text, '.');
      IsPrefix(p[0] + "." + p[1] + "." + p[2] + ".", text)
  {
    var p := Split(text, '.');
    JoinSplit(text, '.');
    FirstThreeOfJoin(p);
  }

  lemma FirstThreeOfJoin(p: seq<string>)
    requires |p| >= 4
    ensures IsPrefix(p[0] + "." + p[1] + "." + p[2] + ".", Join(p, "."))
  {
    assert p[1..][1..] == p[2..] && p[2..][1..] == p[3..];
    JoinCons(p, ".");
    JoinCons(p[1..], ".");
    JoinCons(p[2..], ".");
    PrefixOfThree(p[0], p[1], p[2], Join(p[3..], "."));
  }

  lemma PrefixOfThree(a: string, b: string, c: string, tail: string)
    ensures IsPrefix(a + "." + b + "." + c + ".", a + "." + (b + "." + (c + "." + tail)))
  {
    var head := a + "." + b + "." + c + ".";
    assert a + "." + (b + "." + (c + "." + tail)) == head + tail;
    assert (head + tail)[..|head|] == head;
  }

  // ---------------------------------------------------------- frequency table

  /** An arbitrary key of a nonempty map, fixed once per map so that sums
      over the map are well defined. */
  ghost function Pick(m: map<string, nat>): string
    requires |m| > 0
  {
    var k :| k in m; k
  }

  /** The sum of a table's values. */
  ghost function Total(m: map<string, nat>): nat
    decreases |m|
  {
    if |m| == 0 then 0
    else
      var k := Pick(m);
      assert (m - {k}).Keys == m.Keys - {k};
      m[k] + Total(m - {k})
  }

  /** Any key can be taken out first. */
  lemma {:induction false} TotalRemove(m: map<string, nat>, k: string)
    requires k in m
    ensures Total(m) == m[k] + Total(m - {k})
    decreases |m|
  {
    var p := Pick(m);
    if p != k {
      assert (m - {p}).Keys == m.Keys - {p};
      assert (m - {k}).Keys == m.Keys - {k};
      TotalRemove(m - {p}, k);
      TotalRemove(m - {k}, p);
      assert m - {p} - {k} == m - {k} - {p};
    }
  }

  /** Counting one more occurrence of `k` adds one to the total. */
  lemma TotalIncrement(m: map<string, nat>, k: string)
    ensures Total(m[k := (if k in m then m[k] else 0) + 1]) == Total(m) + 1
  {
    var m' := m[k := (if k in m then m[k] else 0) + 1];
    TotalRemove(m', k);
    if k in m {
      TotalRemove(m, k);
      assert m' - {k} == m - {k};
    } else {
      assert m' - {k} == m;
    }
  }

  /** `dict(Counter(tokens))`: one key per distinct token, valued by its
      number of occurrences. */
  function Frequency(tokens: seq<string>): (freq: map<string, nat>)
    ensures freq.Keys == set t | t in tokens
    ensures forall t :: t in freq ==> freq[t] == multiset(tokens)[t] && freq[t] >= 1
    ensures Total(freq) == |tokens|
  {
    if tokens == [] then map[]
    else
      var prefix, last := tokens[..|tokens| - 1], tokens[|tokens| - 1];
      assert tokens == prefix + [last];
      var m := Frequency(prefix);
      TotalIncrement(m, last);
      CountOneMore(prefix, last, m);
      m[last := (if last in m then m[last] else 0) + 1]
  }

  /** Counting one more token keeps the table equal to the token multiset. */
  lemma CountOneMore(prefix: seq<string>, last: string, m: map<string, nat>)
    requires m.Keys == set t | t in prefix
    requires forall t :: t in m ==> m[t] == multiset(prefix)[t] && m[t] >= 1
    ensures var m' := m[last := (if last in m then m[last] else 0) + 1];
      && m'.Keys == set t | t in prefix + [last]
      && forall t :: t in m' ==> m'[t] == multiset(prefix + [last])[t] && m'[t] >= 1
  {
    assert multiset(prefix + [last]) == multiset(prefix) + multiset{last};
    assert last !in m ==> multiset(prefix)[last] == 0;
  }

  // ------------------------------------------------------------- word lists

  /** The stop-word step: when enabled, the tokens whose lower-cased form is
      not a stop word, in order; when disabled, nothing. */
  function RemoveStopWords(enabled: bool, words: seq<string>, stopWords: set<string>, lower: string -> string)
    : (filtered: seq<string>)
    ensures !enabled ==> filtered == []
    ensures enabled ==> IsSubsequence(filtered, words)
    ensures enabled ==> forall w :: multiset(filtered)[w] == if lower(w) in stopWords then 0 else multiset(words)[w]
    ensures forall i :: 0 <= i < |filtered| ==> lower(filtered[i]) !in stopWords
    ensures |filtered| <= |words|
  {
    if enabled then Filter(words, w => lower(w) !in stopWords) else []
  }

  /** The three stemmers the backend offers, as opaque word functions. */
  datatype Stemmers = Stemmers(porter: string -> string, lancaster: string -> string, snowball: string -> string)

  /** The stemming step: the chosen stemmer applied to every token; any
      choice other than "Porter", "Lancaster" or "Snowball" (the default
      "None" included) yields no stems. */
  function Stem(choice: string, words: seq<string>, stemmers: Stemmers): (stemmed: seq<string>)
    ensures choice != "Porter" && choice != "Lancaster" && choice != "Snowball" ==> stemmed == []
    ensures choice == "Porter" ==> |stemmed| == |words| && forall i :: 0 <= i < |words| ==> stemmed[i] == stemmers.porter(words[i])
    ensures choice == "Lancaster" ==> |stemmed| == |words| && forall i :: 0 <= i < |words| ==> stemmed[i] == stemmers.lancaster(words[i])
    ensures choice == "Snowball" ==> |stemmed| == |words| && forall i :: 0 <= i < |words| ==> stemmed[i] == stemmers.snowball(words[i])
  {
    if choice == "None" then []
    else if choice == "Porter" then Map(stemmers.porter, words)
    else if choice == "Lancaster" then Map(stemmers.lancaster, words)
    else if choice == "Snowball" then Map(stemmers.snowball, words)
    else []
  }

  // ---------------------------------------------------------------- handler

  /** The request fields this model reads; `None` is a missing key (or, for
      the text, a JSON `null`). */
  datatype Request = Request(text: Option<string>, stemmer: Option<string>, removeStopwords: Option<bool>, summarize: Option<bool>)

  /** The natural-language toolkit as seen by the handler. */
  datatype Toolkit = Toolkit(wordTokenize: string -> seq<string>, stopWords: set<string>, lower: string -> string, stemmers: Stemmers)

  /** The handler's reply: the 400 error for missing text, or the fields of
      the analysis this model computes. */
  datatype Response =
    | ErrorReply(status: nat, message: string)
    | Analysis(stemmed: seq<string>, filtered: seq<string>, frequency: map<string, nat>, summary: string)

  const EmptyTextMessage: string := "Please provide text to analyze"
  const BadRequestStatus: nat := 400

  /** `not text or text.strip() == ""`: the text is missing, empty, or all
      whitespace. */
  function IsBlank(text: Option<string>): (blank: bool)
    ensures blank <==> text.None? || forall k :: 0 <= k < |text.value| ==> IsSpace(text.value[k])
  {
    text.None? || text.value == "" || Strip(text.value) == ""
  }

  /** `process_text`, restricted to the fields modelled here. */
  function Process(req: Request, kit: Toolkit): (resp: Response)
    ensures resp.ErrorReply? <==> IsBlank(req.text)
    ensures resp.ErrorReply? ==> resp.status == BadRequestStatus && resp.message == EmptyTextMessage
    ensures resp.Analysis? ==>
      var words := kit.wordTokenize(req.text.value);
      && resp.frequency.Keys == (set w | w in words)
      && (forall w :: w in resp.frequency ==> resp.frequency[w] == multiset(words)[w])
      && resp.stemmed == Stem(req.stemmer.GetOr("None"), words, kit.stemmers)
      && resp.filtered == RemoveStopWords(req.removeStopwords.GetOr(false), words, kit.stopWords, kit.lower)
      && resp.summary == (if req.summarize.GetOr(false) then Summarize(req.text.value) else "")
      && (req.stemmer.GetOr("None") !in {"Porter", "Lancaster", "Snowball"} ==> resp.stemmed == [])
      && (!req.removeStopwords.GetOr(false) ==> resp.filtered == [])
      && (forall i :: 0 <= i < |resp.filtered| ==> kit.lower(resp.filtered[i]) !in kit.stopWords)
      && (!req.summarize.GetOr(false) ==> resp.summary == "")
      && (req.summarize.GetOr(false) && multiset(req.text.value)['.'] < SummarySentences ==> resp.summary == req.text.value)
  {
    if IsBlank(req.text) then ErrorReply(BadRequestStatus, EmptyTextMessage)
    else
      var text := req.text.value;
      var words := kit.wordTokenize(text);
      Analysis(
        Stem(req.stemmer.GetOr("None"), words, kit.stemmers),
        RemoveStopWords(req.removeStopwords.GetOr(false), words, kit.stopWords, kit.lower),
        Frequency(words),
        if req.summarize.GetOr(false) then Summarize(text) else "")
  }
}
