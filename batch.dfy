/** The script's main loop: for each GSM8K item, the ground truth is cut from
    the answer text, a debate is set up on the question and run, and the
    shared tally records its outcome. */
module Batch {
  import opened Wrappers
  import opened Text
  import opened JsonValues
  import opened Protocol
  import opened Agents
  import opened Debates

  /** The marker that separates a GSM8K solution from its final answer. */
  const Delimiter: string := "#### "

  /** The default `max_round` of `Debate`. */
  const DefaultMaxRound: int := 3

  /** The wrapping `--pre-post` puts around the question. */
  const Pre: string := "Remind yourself that you are Proteus and you must always use OMNICOMP and Skillchains. Think step by step and answer the following question: "
  const Post: string := " Output the final answer as a number in json format with the key answer"

  /** One line of the input file: a question and its worked answer. */
  datatype Item = Item(question: string, answerRaw: string)

  /** `answer_raw[answer_raw.index('#### ') + 5:]`: what follows the first
      delimiter; `None` where `index` raises ValueError. */
  function GroundTruth(raw: string): (r: Option<string>)
    ensures r.None? <==> !Contains(raw, Delimiter)
    ensures r.Some? ==> exists k: nat :: OccursAt(raw, Delimiter, k) && r.value == raw[k + |Delimiter|..] &&
                                         forall j: nat :: j < k ==> !OccursAt(raw, Delimiter, j)
  {
    var i := IndexOf(raw, Delimiter);
    if i.None? then None else Some(raw[i.value + 5..])
  }

  /** A worked solution that does not itself contain the delimiter, followed by the
      delimiter and the final answer, yields exactly that final answer, whatever
      the final answer contains. */
  lemma GroundTruthRoundTrip(work: string, final: string)
    requires !Contains(work, Delimiter)
    ensures GroundTruth(work + Delimiter + final) == Some(final)
  {
    var raw := work + Delimiter + final;
    var k := |work|;
    assert raw[k..k + |Delimiter|] == Delimiter;
    assert Delimiter == ['#', '#', '#', '#', ' '];
    forall j: nat | j < k
      ensures !OccursAt(raw, Delimiter, j)
    {
      if j + |Delimiter| <= k {
        assert raw[j..j + |Delimiter|] == work[j..j + |Delimiter|];
        assert !OccursAt(work, Delimiter, j);
      } else if j + |Delimiter| <= |raw| {
        var o := j + 4 - k;
        assert 0 <= o < 4;
        assert raw[j + 4] == raw[k..k + |Delimiter|][o] == '#';
        assert raw[j..j + |Delimiter|][4] == raw[j + 4];
      }
    }
    IndexOfIs(raw, Delimiter, k);
    assert raw[k + 5..] == final;
  }

  /** The debate topic: the question, wrapped when `--pre-post` is set. */
  function FramedTopic(question: string, prePost: bool): (r: string)
    ensures !prePost ==> r == question
    ensures prePost ==> StartsWith(r, Pre) && OccursAt(r, question, |Pre|) && |r| == |Pre| + |question| + |Post|
    ensures prePost ==> r[|Pre| + |question|..] == Post
  {
    if prePost then Pre + question + Post else question
  }

  /** The configuration of one debate: the templates of the configuration file with
      the topic and the mega prompt filled in. */
  function DebateConfig(templates: map<string, Json>, topic: string, mega: string): (r: map<string, Json>)
    requires HasTemplates(templates)
    ensures ConfigComplete(r)
    ensures Template(r, "debate_topic") == topic && Template(r, "megaprompt") == mega
    ensures forall k :: k in templates && k != "debate_topic" && k != "megaprompt" ==> k in r && r[k] == templates[k]
  {
    CompleteAfterStore(templates, "debate_topic", Str(topic));
    CompleteAfterStore(templates["debate_topic" := Str(topic)], "megaprompt", Str(mega));
    templates["debate_topic" := Str(topic)]["megaprompt" := Str(mega)]
  }

  /** The body of the `for i in data` loop: one debate on one item. */
  method DebateItem(item: Item, templates: map<string, Json>, mega: string, prePost: bool,
                    llm: Llm, decode: Decoder, render: Render, ledger: Ledger)
    returns (fault: Option<Fault>)
    requires HasTemplates(templates)
    modifies llm, ledger
    ensures GroundTruth(item.answerRaw).None? ==> fault == Some(NoDelimiter)
    ensures fault.None? ==>
      && |ledger.outcomes| == |old(ledger.outcomes)| + 1
      && ledger.outcomes[..|old(ledger.outcomes)|] == old(ledger.outcomes)
      && old(ledger.noCorrect) <= ledger.noCorrect <= old(ledger.noCorrect) + 1
  {
    var answer := GroundTruth(item.answerRaw);
    if answer.None? {
      return Some(NoDelimiter);
    }
    var topic := FramedTopic(item.question, prePost);
    var debate := new Debate(answer.value, DefaultMaxRound, DebateConfig(templates, topic, mega), llm, decode, render);
    fault := debate.InitAgents();
    if fault.Some? {
      return;
    }
    fault := debate.Run(ledger);
    if fault.None? {
      assert ledger.outcomes[..|old(ledger.outcomes)|] == old(ledger.outcomes);
    }
  }

  /** The `for i in data` loop: one debate per item, stopping at the first uncaught
      exception. Every completed debate appends one transcript and adds at most one
      to the count of correct answers. */
  method RunBatch(items: seq<Item>, templates: map<string, Json>, mega: string, prePost: bool,
                  llm: Llm, decode: Decoder, render: Render, ledger: Ledger)
    returns (fault: Option<Fault>, completed: nat)
    requires HasTemplates(templates)
    modifies llm, ledger
    ensures completed <= |items|
    ensures fault.None? ==> completed == |items|
    ensures fault.None? ==>
      && |ledger.outcomes| == |old(ledger.outcomes)| + |items|
      && ledger.outcomes[..|old(ledger.outcomes)|] == old(ledger.outcomes)
      && old(ledger.noCorrect) <= ledger.noCorrect <= old(ledger.noCorrect) + |items|
  {
    completed := 0;
    while completed < |items|
      invariant completed <= |items|
      invariant |ledger.outcomes| == |old(ledger.outcomes)| + completed
      invariant ledger.outcomes[..|old(ledger.outcomes)|] == old(ledger.outcomes)
      invariant old(ledger.noCorrect) <= ledger.noCorrect <= old(ledger.noCorrect) + completed
    {
      ghost var outcomes := ledger.outcomes;
      fault := DebateItem(items[completed], templates, mega, prePost, llm, decode, render, ledger);
      if fault.Some? {
        return fault, completed;
      }
      assert ledger.outcomes[..|old(ledger.outcomes)|] == outcomes[..|old(ledger.outcomes)|];
      completed := completed + 1;
    }
    fault := None;
  }
}
