/** The debate protocol of `Debate` (`init_agents`, the round loop of `run` and
    its verdict handling) as functions over the session state. The `Debate`
    class is proved to follow these functions step by step. */
module Protocol {
  import opened Wrappers
  import opened Text
  import opened JsonValues
  import opened Extraction

  /** Who sent a turn of a player's memory. */
  datatype Role = System | User | Assistant

  /** One entry of `memory_lst`: `{"role": ..., "content": ...}`. */
  datatype Turn = Turn(role: Role, content: string)

  /** The language model behind `ask`: the reply to the `n`-th request of the
      run, given the asking player's whole memory. */
  type Oracle = (nat, seq<Turn>) -> string

  /** Everything outside the driver: the model, `json.loads` and `str`. */
  datatype Env = Env(respond: Oracle, decode: Decoder, render: Render)

  /** `self.mod_ans`: a reply kept as text, or what `json.loads` made of it. */
  datatype Verdict = Raw(text: string) | Parsed(value: Json)

  /** The uncaught exceptions that end a debate (and, uncaught, the whole batch). */
  datatype Fault =
    | ExtractFailed(error: ExtractError)   // `extract_answer` raised ValueError
    | EmptyReply                          // `reply[0]` on an empty reply: IndexError
    | Undecodable                         // `json.loads` raised
    | VerdictLookup                       // `mod_ans["debate_answer"]` raised KeyError or TypeError
    | NoRoundLabel(round: int)            // `round_dct` raised KeyError
    | ShortMemory                         // `memory_lst[2]` raised IndexError
    | NoDelimiter                         // `answer_raw.index('#### ')` raised ValueError

  /** The placeholders the prompt templates carry. */
  const TopicSlot: string := "##debate_topic##"
  const AffSlot: string := "##aff_ans##"
  const NegSlot: string := "##neg_ans##"
  const OppoSlot: string := "##oppo_ans##"
  const RoundSlot: string := "##round##"

  /** The keys the driver reads from structured answers and verdicts. */
  const AnswerKey: string := "answer"
  const DebateAnswerKey: string := "debate_answer"

  /** `round_dct`: the ordinal word for rounds 1 to 10. */
  const Ordinals: map<int, string> := map[
    1 := "first", 2 := "second", 3 := "third", 4 := "fourth", 5 := "fifth",
    6 := "sixth", 7 := "seventh", 8 := "eighth", 9 := "ninth", 10 := "tenth"]

  /** `self.round_dct(num)`; `None` where the lookup raises KeyError. */
  function RoundLabel(n: int): (r: Option<string>)
    ensures r.Some? <==> 1 <= n <= 10
    ensures r.Some? ==> r.value != ""
  {
    if n in Ordinals then Some(Ordinals[n]) else None
  }

  /** `cfg[key]` exists and is a string. */
  predicate IsText(cfg: map<string, Json>, key: string)
  {
    key in cfg && cfg[key].Str?
  }

  /** The configuration holds every template the driver reads, as strings. */
  predicate ConfigComplete(cfg: map<string, Json>)
  {
    IsText(cfg, "debate_topic") && IsText(cfg, "megaprompt") && HasTemplates(cfg)
  }

  /** The prompt templates of the configuration file, as strings. */
  predicate HasTemplates(cfg: map<string, Json>)
  {
    && IsText(cfg, "player_meta_prompt")
    && IsText(cfg, "moderator_meta_prompt")
    && IsText(cfg, "affirmative_prompt")
    && IsText(cfg, "negative_prompt")
    && IsText(cfg, "moderator_prompt")
    && IsText(cfg, "debate_prompt")
    && IsText(cfg, "judge_prompt_last1")
    && IsText(cfg, "judge_prompt_last2")
  }

  /** Storing a string under any key keeps the configuration complete. */
  lemma CompleteAfterStore(cfg: map<string, Json>, key: string, v: Json)
    requires HasTemplates(cfg) && v.Str?
    ensures HasTemplates(cfg[key := v])
    ensures ConfigComplete(cfg) ==> ConfigComplete(cfg[key := v])
  {
  }

  /** `self.config[key]` read as a template. */
  function Template(cfg: map<string, Json>, key: string): string
    requires IsText(cfg, key)
  {
    cfg[key].s
  }

  /** `prompt_replace(key)` inside `init_prompt`. */
  function SubstituteTopic(cfg: map<string, Json>, key: string): map<string, Json>
    requires IsText(cfg, key) && IsText(cfg, "debate_topic")
  {
    cfg[key := Str(Replace(Template(cfg, key), TopicSlot, Template(cfg, "debate_topic")))]
  }

  /** `init_prompt`: the debate topic is substituted into four templates, in this order. */
  function WithTopic(cfg: map<string, Json>): (r: map<string, Json>)
    requires ConfigComplete(cfg)
    ensures ConfigComplete(r) && r.Keys == cfg.Keys
  {
    var c1 := SubstituteTopic(cfg, "player_meta_prompt");
    var c2 := SubstituteTopic(c1, "moderator_meta_prompt");
    var c3 := SubstituteTopic(c2, "affirmative_prompt");
    SubstituteTopic(c3, "judge_prompt_last2")
  }

  /** The moderator's event for a round: both raw answers and the round label. */
  function ModeratorEvent(cfg: map<string, Json>, aff: string, neg: string, ordinal: string): string
    requires ConfigComplete(cfg)
  {
    Replace(Replace(Replace(Template(cfg, "moderator_prompt"), AffSlot, aff), NegSlot, neg), RoundSlot, ordinal)
  }

  /** The judge's first event: both sides' candidate answers. */
  function JudgeEvent(cfg: map<string, Json>, aff: string, neg: string): string
    requires ConfigComplete(cfg)
  {
    Replace(Replace(Template(cfg, "judge_prompt_last1"), AffSlot, aff), NegSlot, neg)
  }

  /** Reading a moderator or judge reply: `reply[0]` raises on an empty reply; a
      reply that starts with `{` (and, where `needClose` holds, ends with `}`) is
      passed to `json.loads`, any other reply is kept as text. */
  function ReadVerdict(reply: string, decode: Decoder, needClose: bool): (r: Result<Verdict, Fault>)
    ensures r.Failure? ==> r.error == EmptyReply || r.error == Undecodable
    ensures r == Failure(EmptyReply) <==> reply == []
    ensures r.Success? && r.value.Raw? ==> r.value.text == reply
    ensures r.Success? && r.value.Parsed? ==>
      reply[0] == '{' && (!needClose || reply[|reply| - 1] == '}') && decode(reply) == Some(r.value.value)
    ensures reply != [] && !(reply[0] == '{' && (!needClose || reply[|reply| - 1] == '}')) ==> r == Success(Raw(reply))
    ensures reply != [] && reply[0] == '{' && (!needClose || reply[|reply| - 1] == '}') ==>
      (r == Failure(Undecodable) <==> decode(reply).None?)
  {
    if reply == [] then Failure(EmptyReply)
    else if reply[0] == '{' && (!needClose || reply[|reply| - 1] == '}') then
      var v := decode(reply);
      if v.None? then Failure(Undecodable) else Success(Parsed(v.value))
    else Success(Raw(reply))
  }

  /** `mod_ans["debate_answer"]`; `None` where the lookup raises. */
  function VerdictAnswer(verdict: Verdict): Option<Json>
  {
    if verdict.Raw? then None else Field(verdict.value, DebateAnswerKey)
  }

  /** The consensus test inside the `try` of `run`: both extracted answers decode,
      both have an `answer` field, and the two fields are equal. Any exception in
      it is caught, so a failure is just "no agreement". */
  function Agreement(affJson: string, negJson: string, decode: Decoder): (r: Option<Json>)
    ensures r.Some? <==>
      && decode(affJson).Some? && decode(negJson).Some?
      && Field(decode(affJson).value, AnswerKey).Some?
      && Field(decode(affJson).value, AnswerKey) == Field(decode(negJson).value, AnswerKey)
    ensures r.Some? ==> r == Field(decode(affJson).value, AnswerKey)
  {
    var a := decode(affJson);
    var n := decode(negJson);
    if a.None? || n.None? then None
    else
      var x := Field(a.value, AnswerKey);
      var y := Field(n.value, AnswerKey);
      if x.None? || y.None? || x.value != y.value then None else x
  }

  /** The effect of the `try` block on `mod_ans`: on agreement the shared answer is
      stored as `debate_answer`, which only a dict accepts (any other verdict raises
      TypeError, which is caught). */
  function ApplyConsensus(verdict: Verdict, affJson: string, negJson: string, decode: Decoder): (r: Verdict)
    ensures Agreement(affJson, negJson, decode).Some? && verdict.Parsed? && verdict.value.Obj? ==>
      VerdictAnswer(r) == Agreement(affJson, negJson, decode) &&
      r.value.fields.Keys == verdict.value.fields.Keys + {DebateAnswerKey} &&
      forall k :: k in verdict.value.fields && k != DebateAnswerKey ==> r.value.fields[k] == verdict.value.fields[k]
    ensures !(Agreement(affJson, negJson, decode).Some? && verdict.Parsed? && verdict.value.Obj?) ==> r == verdict
  {
    var agreed := Agreement(affJson, negJson, decode);
    if agreed.Some? && verdict.Parsed? && verdict.value.Obj? then
      Parsed(Obj(verdict.value.fields[DebateAnswerKey := agreed.value]))
    else verdict
  }

  /** The state of a debate: `self.config`, the three players' memories, the
      latest raw and extracted answers, the verdict, `determined_correctness`,
      and how many model requests have been made. */
  datatype Session = Session(
    config: map<string, Json>,
    aff: seq<Turn>,
    neg: seq<Turn>,
    moderator: seq<Turn>,
    affAns: string,
    negAns: string,
    affJson: string,
    negJson: string,
    verdict: Verdict,
    determined: bool,
    calls: nat)

  /** `t` follows `s` after `rounds` full rebuttal rounds: every memory has kept its
      prefix and gained two turns per round, three model requests were made per
      round, and the configuration and correctness flag are untouched. */
  ghost predicate Grown(s: Session, t: Session, rounds: int)
  {
    && rounds >= 0
    && t.config == s.config && t.determined == s.determined
    && |t.aff| == |s.aff| + 2 * rounds && t.aff[..|s.aff|] == s.aff
    && |t.neg| == |s.neg| + 2 * rounds && t.neg[..|s.neg|] == s.neg
    && |t.moderator| == |s.moderator| + 2 * rounds && t.moderator[..|s.moderator|] == s.moderator
    && t.calls == s.calls + 3 * rounds
  }

  /** The meta prompts `init_agents` starts with: the players' prompt with the
      mega prompt appended, and the moderator's prompt. */
  function MetaPrompts(s: Session): Session
    requires ConfigComplete(s.config)
  {
    var playerMeta := Template(s.config, "player_meta_prompt") + " " + Template(s.config, "megaprompt");
    s.(aff := s.aff + [Turn(System, playerMeta)], neg := s.neg + [Turn(System, playerMeta)],
       moderator := s.moderator + [Turn(System, Template(s.config, "moderator_meta_prompt"))])
  }

  /** Setting the meta prompts appends one system turn to each memory: the same
      player prompt, followed by the mega prompt, to both sides, and the moderator's
      own prompt to the moderator. Nothing else in the session changes. */
  lemma MetaPromptsEffect(s: Session)
    requires ConfigComplete(s.config)
    ensures var t := MetaPrompts(s);
      var playerMeta := Template(s.config, "player_meta_prompt") + " " + Template(s.config, "megaprompt");
      && |t.aff| == |s.aff| + 1 && t.aff[..|s.aff|] == s.aff && t.aff[|s.aff|] == Turn(System, playerMeta)
      && |t.neg| == |s.neg| + 1 && t.neg[..|s.neg|] == s.neg && t.neg[|s.neg|] == Turn(System, playerMeta)
      && |t.moderator| == |s.moderator| + 1 && t.moderator[..|s.moderator|] == s.moderator
      && t.moderator[|s.moderator|] == Turn(System, Template(s.config, "moderator_meta_prompt"))
      && t.(aff := s.aff, neg := s.neg, moderator := s.moderator) == s
  {
  }

  /** The affirmative's opening: it answers the affirmative prompt, its answer is
      extracted and kept as `base_answer`. */
  function OpenAffirmative(s: Session, env: Env): (r: Result<Session, Fault>)
    requires ConfigComplete(s.config)
    ensures r.Success? ==> ConfigComplete(r.value.config)
  {
    var aff1 := s.aff + [Turn(User, Template(s.config, "affirmative_prompt"))];
    var a := env.respond(s.calls, aff1);
    var extracted := ExtractAnswer(a);
    if extracted.Failure? then Failure(ExtractFailed(extracted.error))
    else
      CompleteAfterStore(s.config, "base_answer", Str(a));
      Success(s.(config := s.config["base_answer" := Str(a)], aff := aff1 + [Turn(Assistant, a)],
                 affAns := a, affJson := extracted.value, calls := s.calls + 1))
  }

  /** What `OpenAffirmative` shows its player, when it fails and what it changes:
      the reply becomes the affirmative's answer and `base_answer`. */
  lemma OpenAffirmativeEffect(s: Session, env: Env)
    requires ConfigComplete(s.config)
    ensures var r := OpenAffirmative(s, env);
      var aff1 := s.aff + [Turn(User, Template(s.config, "affirmative_prompt"))];
      var reply := env.respond(s.calls, aff1);
      && (r.Failure? <==> ExtractAnswer(reply).Failure?)
      && (r.Failure? ==> r.error == ExtractFailed(ExtractAnswer(reply).error))
      && (r.Success? ==> r.value == s.(config := s.config["base_answer" := Str(reply)], aff := aff1 + [Turn(Assistant, reply)],
                                       affAns := reply, affJson := ExtractAnswer(reply).value, calls := s.calls + 1))
  {
  }

  /** The negative's opening: it answers the affirmative's opening answer. */
  function OpenNegative(s: Session, env: Env): Result<Session, Fault>
    requires ConfigComplete(s.config)
  {
    var neg1 := s.neg + [Turn(User, Replace(Template(s.config, "negative_prompt"), AffSlot, s.affAns))];
    var n := env.respond(s.calls, neg1);
    var extracted := ExtractAnswer(n);
    if extracted.Failure? then Failure(ExtractFailed(extracted.error))
    else Success(s.(neg := neg1 + [Turn(Assistant, n)], negAns := n, negJson := extracted.value, calls := s.calls + 1))
  }

  /** What `OpenNegative` shows its player, when it fails and what it changes. */
  lemma OpenNegativeEffect(s: Session, env: Env)
    requires ConfigComplete(s.config)
    ensures var r := OpenNegative(s, env);
      var neg1 := s.neg + [Turn(User, Replace(Template(s.config, "negative_prompt"), AffSlot, s.affAns))];
      var reply := env.respond(s.calls, neg1);
      && (r.Failure? <==> ExtractAnswer(reply).Failure?)
      && (r.Failure? ==> r.error == ExtractFailed(ExtractAnswer(reply).error))
      && (r.Success? ==> r.value == s.(neg := neg1 + [Turn(Assistant, reply)], negAns := reply,
                                       negJson := ExtractAnswer(reply).value, calls := s.calls + 1))
  {
  }

  /** The moderator's turn: it is shown both latest answers under the round's
      ordinal, and its reply becomes the verdict. */
  function ModeratorTurn(s: Session, ordinal: string, needClose: bool, env: Env): Result<Session, Fault>
    requires ConfigComplete(s.config)
  {
    var mod1 := s.moderator + [Turn(User, ModeratorEvent(s.config, s.affAns, s.negAns, ordinal))];
    var m := env.respond(s.calls, mod1);
    var verdict := ReadVerdict(m, env.decode, needClose);
    if verdict.Failure? then Failure(verdict.error)
    else Success(s.(moderator := mod1 + [Turn(Assistant, m)], verdict := verdict.value, calls := s.calls + 1))
  }

  /** What `ModeratorTurn` shows its player, when it fails and what it changes. */
  lemma ModeratorTurnEffect(s: Session, ordinal: string, needClose: bool, env: Env)
    requires ConfigComplete(s.config)
    ensures var r := ModeratorTurn(s, ordinal, needClose, env);
      var mod1 := s.moderator + [Turn(User, ModeratorEvent(s.config, s.affAns, s.negAns, ordinal))];
      var reply := env.respond(s.calls, mod1);
      && (r.Failure? <==> ReadVerdict(reply, env.decode, needClose).Failure?)
      && (r.Failure? ==> r.error == ReadVerdict(reply, env.decode, needClose).error)
      && (r.Success? ==> r.value == s.(moderator := mod1 + [Turn(Assistant, reply)],
                                       verdict := ReadVerdict(reply, env.decode, needClose).value, calls := s.calls + 1))
  {
  }

  /** `init_agents`: meta prompts, then the opening round (affirmative, negative
      answering the affirmative, moderator judging both as round "first"). */
  function Opening(s: Session, env: Env): (r: Result<Session, Fault>)
    requires ConfigComplete(s.config)
    ensures r.Failure? ==> r.error.ExtractFailed? || r.error == EmptyReply || r.error == Undecodable
    ensures r.Success? ==> var t := r.value;
      && t.config == s.config["base_answer" := Str(t.affAns)] && ConfigComplete(t.config)
      && t.determined == s.determined
  {
    var s1 := OpenAffirmative(MetaPrompts(s), env);
    if s1.Failure? then s1
    else
      var s2 := OpenNegative(s1.value, env);
      if s2.Failure? then s2
      else ModeratorTurn(s2.value, "first", true, env)
  }

  /** What a completed opening adds: a meta prompt, an event and an answer per
      memory, the opening answers and their extractions, and three requests. */
  lemma OpeningGrows(s: Session, env: Env)
    requires ConfigComplete(s.config)
    requires Opening(s, env).Success?
    ensures var t := Opening(s, env).value;
      && |t.aff| == |s.aff| + 3 && |t.neg| == |s.neg| + 3 && |t.moderator| == |s.moderator| + 3
      && t.aff[..|s.aff|] == s.aff && t.neg[..|s.neg|] == s.neg && t.moderator[..|s.moderator|] == s.moderator
      && t.aff[|s.aff|] == Turn(System, Template(s.config, "player_meta_prompt") + " " + Template(s.config, "megaprompt"))
      && t.neg[|s.neg|] == Turn(System, Template(s.config, "player_meta_prompt") + " " + Template(s.config, "megaprompt"))
      && t.moderator[|s.moderator|] == Turn(System, Template(s.config, "moderator_meta_prompt"))
      && t.affAns == env.respond(s.calls, t.aff[..|s.aff| + 2])
      && t.negAns == env.respond(s.calls + 1, t.neg[..|s.neg| + 2])
      && t.aff[|s.aff| + 2] == Turn(Assistant, t.affAns)
      && t.neg[|s.neg| + 2] == Turn(Assistant, t.negAns)
      && t.neg[|s.neg| + 1] == Turn(User, Replace(Template(s.config, "negative_prompt"), AffSlot, t.affAns))
      && t.moderator[|s.moderator| + 1] == Turn(User, ModeratorEvent(t.config, t.affAns, t.negAns, "first"))
      && t.moderator[|s.moderator| + 2].role == Assistant
      && ReadVerdict(t.moderator[|s.moderator| + 2].content, env.decode, true) == Success(t.verdict)
      && t.aff[|s.aff| + 1] == Turn(User, Template(s.config, "affirmative_prompt"))
      && ExtractAnswer(t.affAns) == Success(t.affJson)
      && ExtractAnswer(t.negAns) == Success(t.negJson)
      && t.calls == s.calls + 3
  {
  }

  /** The affirmative's rebuttal: it answers the negative's latest answer. */
  function RebutAffirmative(s: Session, env: Env): Result<Session, Fault>
    requires ConfigComplete(s.config)
  {
    var aff1 := s.aff + [Turn(User, Replace(Template(s.config, "debate_prompt"), OppoSlot, s.negAns))];
    var a := env.respond(s.calls, aff1);
    var extracted := ExtractAnswer(a);
    if extracted.Failure? then Failure(ExtractFailed(extracted.error))
    else Success(s.(aff := aff1 + [Turn(Assistant, a)], affAns := a, affJson := extracted.value, calls := s.calls + 1))
  }

  /** What `RebutAffirmative` shows its player, when it fails and what it changes. */
  lemma RebutAffirmativeEffect(s: Session, env: Env)
    requires ConfigComplete(s.config)
    ensures var r := RebutAffirmative(s, env);
      var aff1 := s.aff + [Turn(User, Replace(Template(s.config, "debate_prompt"), OppoSlot, s.negAns))];
      var reply := env.respond(s.calls, aff1);
      && (r.Failure? <==> ExtractAnswer(reply).Failure?)
      && (r.Failure? ==> r.error == ExtractFailed(ExtractAnswer(reply).error))
      && (r.Success? ==> r.value == s.(aff := aff1 + [Turn(Assistant, reply)], affAns := reply,
                                       affJson := ExtractAnswer(reply).value, calls := s.calls + 1))
  {
  }

  /** The negative's rebuttal: it is shown the affirmative's new answer, but its
      stored extraction is taken from its own answer of the round before, which
      is only then replaced by the new one. */
  function RebutNegative(s: Session, env: Env): Result<Session, Fault>
    requires ConfigComplete(s.config)
  {
    var neg1 := s.neg + [Turn(User, Replace(Template(s.config, "debate_prompt"), OppoSlot, s.affAns))];
    var extracted := ExtractAnswer(s.negAns);
    if extracted.Failure? then Failure(ExtractFailed(extracted.error))
    else
      var n := env.respond(s.calls, neg1);
      Success(s.(neg := neg1 + [Turn(Assistant, n)], negAns := n, negJson := extracted.value, calls := s.calls + 1))
  }

  /** What `RebutNegative` shows its player, when it fails and what it changes. */
  lemma RebutNegativeEffect(s: Session, env: Env)
    requires ConfigComplete(s.config)
    ensures var r := RebutNegative(s, env);
      var neg1 := s.neg + [Turn(User, Replace(Template(s.config, "debate_prompt"), OppoSlot, s.affAns))];
      var reply := env.respond(s.calls, neg1);
      && (r.Failure? <==> ExtractAnswer(s.negAns).Failure?)
      && (r.Failure? ==> r.error == ExtractFailed(ExtractAnswer(s.negAns).error))
      && (r.Success? ==> r.value == s.(neg := neg1 + [Turn(Assistant, reply)], negAns := reply,
                                       negJson := ExtractAnswer(s.negAns).value, calls := s.calls + 1))
  {
  }

  /** One rebuttal round of `run` (loop index `round`, labelled round `round + 2`). */
  function Rebuttal(s: Session, round: nat, env: Env): (r: Result<Session, Fault>)
    requires ConfigComplete(s.config)
    ensures r.Failure? ==> r.error.ExtractFailed? || r.error == NoRoundLabel(round + 2) ||
                           r.error == EmptyReply || r.error == Undecodable
    ensures r.Failure? && r.error.NoRoundLabel? ==> round + 2 > 10
    ensures round + 2 > 10 ==> r.Failure?
    ensures r.Success? ==> r.value.config == s.config && r.value.determined == s.determined
  {
    var s1 := RebutAffirmative(s, env);
    if s1.Failure? then s1
    else
      var s2 := RebutNegative(s1.value, env);
      if s2.Failure? then s2
      else
        var ordinal := RoundLabel(round + 2);
        if ordinal.None? then Failure(NoRoundLabel(round + 2))
        else ModeratorTurn(s2.value, ordinal.value, false, env)
  }

  /** What a completed rebuttal round adds: one event and one answer per memory and
      three requests. The affirmative is shown the negative's last answer and the
      negative the affirmative's new one; the negative's stored extraction comes
      from its answer of the round before. */
  lemma RebuttalGrows(s: Session, round: nat, env: Env)
    requires ConfigComplete(s.config)
    requires Rebuttal(s, round, env).Success?
    ensures var t := Rebuttal(s, round, env).value;
      && Grown(s, t, 1)
      && t.aff[|s.aff|] == Turn(User, Replace(Template(s.config, "debate_prompt"), OppoSlot, s.negAns))
      && t.aff[|s.aff| + 1] == Turn(Assistant, t.affAns)
      && t.neg[|s.neg|] == Turn(User, Replace(Template(s.config, "debate_prompt"), OppoSlot, t.affAns))
      && t.neg[|s.neg| + 1] == Turn(Assistant, t.negAns)
      && t.moderator[|s.moderator|] == Turn(User, ModeratorEvent(s.config, t.affAns, t.negAns, RoundLabel(round + 2).value))
      && t.moderator[|s.moderator| + 1].role == Assistant
      && ReadVerdict(t.moderator[|s.moderator| + 1].content, env.decode, false) == Success(t.verdict)
      && ExtractAnswer(t.affAns) == Success(t.affJson)
      && ExtractAnswer(s.negAns) == Success(t.negJson)
  {
  }

  /** How many iterations `for round in range(max_round - 1)` has left from `round`. */
  function Iterations(round: nat, maxRound: int): nat
  {
    if round < maxRound - 1 then maxRound - 1 - round else 0
  }

  /** Where the round loop stopped: the state, the loop index it stopped at,
      and whether it broke on a non-empty `debate_answer`. */
  datatype LoopEnd = LoopEnd(s: Session, round: nat, settled: bool)

  /** The round loop of `run`, from iteration `round` on: consensus check, then
      stop on a non-empty `debate_answer`, else a rebuttal round. */
  function Rounds(s: Session, round: nat, maxRound: int, env: Env): (r: Result<LoopEnd, Fault>)
    requires ConfigComplete(s.config)
    decreases Iterations(round, maxRound)
    ensures r.Failure? ==> r.error != ShortMemory && r.error != NoDelimiter
    ensures r.Success? ==> var e := r.value;
      && round <= e.round && e.round - round <= Iterations(round, maxRound)
      && e.s.config == s.config && e.s.determined == s.determined
      && (e.settled <==> Iterations(e.round, maxRound) > 0)
      && (e.settled ==> VerdictAnswer(e.s.verdict).Some? && VerdictAnswer(e.s.verdict).value != Str(""))
  {
    if maxRound - 1 <= round then Success(LoopEnd(s, round, false))
    else
      var s1 := s.(verdict := ApplyConsensus(s.verdict, s.affJson, s.negJson, env.decode));
      var answer := VerdictAnswer(s1.verdict);
      if answer.None? then Failure(VerdictLookup)
      else if answer.value != Str("") then Success(LoopEnd(s1, round, true))
      else
        var s2 := Rebuttal(s1, round, env);
        if s2.Failure? then Failure(s2.error)
        else Rounds(s2.value, round + 1, maxRound, env)
  }

  /** The loop breaks in the very iteration whose checked verdict carries a
      non-empty `debate_answer`, leaving the state as the check left it. */
  lemma RoundsBreakOnAnswer(s: Session, round: nat, maxRound: int, env: Env)
    requires ConfigComplete(s.config)
    requires round < maxRound - 1
    ensures var v := ApplyConsensus(s.verdict, s.affJson, s.negJson, env.decode);
      VerdictAnswer(v).Some? && VerdictAnswer(v).value != Str("") ==>
        Rounds(s, round, maxRound, env) == Success(LoopEnd(s.(verdict := v), round, true))
  {
  }

  /** How a debate ended: the final state, the judge's memory if a judge was
      called, the text tested against the ground truth, and whether the debate
      was counted correct. */
  datatype Finish = Finish(session: Session, judge: Option<seq<Turn>>, text: string, correct: bool)

  /** The part of `run` after the loop: a non-empty `debate_answer` is the result;
      an empty one calls in the judge. */
  function Conclude(s: Session, answer: string, env: Env): (r: Result<Finish, Fault>)
    requires ConfigComplete(s.config)
    ensures VerdictAnswer(s.verdict).None? ==> r == Failure(VerdictLookup)
    ensures r.Failure? ==> r.error in {VerdictLookup, ShortMemory, EmptyReply, Undecodable}
    ensures r == Failure(ShortMemory) ==> |s.aff| < 3 || |s.neg| < 3
    ensures r.Success? ==> (r.value.judge.Some? <==> VerdictAnswer(s.verdict) == Some(Str("")))
    ensures r.Success? ==> r.value.session.determined == (s.determined || r.value.correct)
    ensures r.Success? && r.value.judge.None? ==>
      && r.value.text == PyStr(VerdictAnswer(s.verdict).value, env.render)
      && r.value.session.config == (s.config + s.verdict.value.fields)["success" := Bool(true)]
      && r.value.correct == Contains(r.value.text, answer)
      && r.value.session == s.(config := r.value.session.config, determined := r.value.session.determined)
    ensures r.Success? && r.value.judge.Some? ==> var j := r.value.judge.value;
      && r.value.correct == (!s.determined && Contains(r.value.text, answer))
      && |j| == 5 && |s.aff| >= 3 && |s.neg| >= 3
      && j[1] == Turn(User, JudgeEvent(s.config, s.aff[2].content, s.neg[2].content))
      && r.value.session == s.(config := r.value.session.config, determined := r.value.session.determined,
                                calls := s.calls + 2)
  {
    var d := VerdictAnswer(s.verdict);
    if d.None? then Failure(VerdictLookup)
    else if d.value != Str("") then
      var text := PyStr(d.value, env.render);
      var correct := Contains(text, answer);
      var cfg := (s.config + s.verdict.value.fields)["success" := Bool(true)];
      Success(Finish(s.(config := cfg, determined := s.determined || correct), None, text, correct))
    else Judge(s, answer, env)
  }

  /** The judge ("ultimate deadly technique"): it reads the third memory entry of
      each side, is asked for candidates, then for one final answer. */
  function Judge(s: Session, answer: string, env: Env): (r: Result<Finish, Fault>)
    requires ConfigComplete(s.config)
    ensures r.Failure? ==> r.error in {VerdictLookup, ShortMemory, EmptyReply, Undecodable}
    ensures r == Failure(ShortMemory) <==> |s.aff| < 3 || |s.neg| < 3
    ensures r.Success? ==> var j := r.value.judge;
      && j.Some? && |j.value| == 5
      && j.value[1] == Turn(User, JudgeEvent(s.config, s.aff[2].content, s.neg[2].content))
      && r.value.correct == (!s.determined && Contains(r.value.text, answer))
      && r.value.session == s.(config := r.value.session.config, determined := s.determined || r.value.correct,
                                calls := s.calls + 2)
    ensures r.Success? ==>
      var read := JudgeReading(s.config, r.value.judge.value[4].content, env.decode, env.render);
      && read.Success? && r.value.text == read.value.1 && r.value.session.config == read.value.0
  {
    if |s.aff| < 3 || |s.neg| < 3 then Failure(ShortMemory)
    else JudgeRules(s.(calls := s.calls + 2), JudgeMemory(s, env), answer, env)
  }

  /** The judge's conversation: the moderator's meta prompt, both sides' third
      memory entries as candidates, its reply, the final-choice prompt, its reply. */
  function JudgeMemory(s: Session, env: Env): (m: seq<Turn>)
    requires ConfigComplete(s.config) && |s.aff| >= 3 && |s.neg| >= 3
    ensures |m| == 5 && m[1] == Turn(User, JudgeEvent(s.config, s.aff[2].content, s.neg[2].content))
    ensures m[0] == Turn(System, Template(s.config, "moderator_meta_prompt"))
    ensures m[2] == Turn(Assistant, env.respond(s.calls, m[..2]))
    ensures m[3] == Turn(User, Template(s.config, "judge_prompt_last2"))
    ensures m[4] == Turn(Assistant, env.respond(s.calls + 1, m[..4]))
  {
    var cfg := s.config;
    var j1 := [Turn(System, Template(cfg, "moderator_meta_prompt")),
               Turn(User, JudgeEvent(cfg, s.aff[2].content, s.neg[2].content))];
    var a1 := env.respond(s.calls, j1);
    var j2 := j1 + [Turn(Assistant, a1), Turn(User, Template(cfg, "judge_prompt_last2"))];
    var a2 := env.respond(s.calls + 1, j2);
    assert (j2 + [Turn(Assistant, a2)])[..2] == j1;
    assert (j2 + [Turn(Assistant, a2)])[..4] == j2;
    j2 + [Turn(Assistant, a2)]
  }

  /** The judge's last reply read as the final answer: the configuration it leaves
      and the text tested against the ground truth. A JSON reply with a non-empty
      `debate_answer` is merged into the configuration; a reply that is not JSON is
      its own text. */
  function JudgeReading(cfg: map<string, Json>, reply: string, decode: Decoder, render: Render): (r: Result<(map<string, Json>, string), Fault>)
    ensures r.Failure? ==> r.error in {VerdictLookup, EmptyReply, Undecodable}
    ensures r.Failure? <==> reply == [] || (reply[0] == '{' && reply[|reply| - 1] == '}' &&
                                           (decode(reply).None? || Field(decode(reply).value, DebateAnswerKey).None?))
    ensures r.Success? && !(reply[0] == '{' && reply[|reply| - 1] == '}') ==> r.value == (cfg, reply)
    ensures r.Success? && reply[0] == '{' && reply[|reply| - 1] == '}' ==>
      var x := decode(reply).value;
      && r.value.1 == PyStr(x, render)
      && r.value.0 == (if Field(x, DebateAnswerKey).value != Str("") then cfg["success" := Bool(true)] + x.fields else cfg)
  {
    var v := ReadVerdict(reply, decode, true);
    if v.Failure? then Failure(v.error)
    else if v.value.Raw? then Success((cfg, reply))
    else
      var x := v.value.value;
      var d := Field(x, DebateAnswerKey);
      if d.None? then Failure(VerdictLookup)
      else if d.value != Str("") then Success((cfg["success" := Bool(true)] + x.fields, PyStr(x, render)))
      else Success((cfg, PyStr(x, render)))
  }

  /** The judge's verdict: the debate counts as correct if it was not already and
      the ground truth occurs in the text of the judge's last reply. */
  function JudgeRules(s: Session, memory: seq<Turn>, answer: string, env: Env): (r: Result<Finish, Fault>)
    requires |memory| == 5
    ensures r.Failure? ==> r.error in {VerdictLookup, EmptyReply, Undecodable}
    ensures r.Success? ==>
      && r.value.judge == Some(memory)
      && r.value.correct == (!s.determined && Contains(r.value.text, answer))
      && r.value.session == s.(config := r.value.session.config, determined := s.determined || r.value.correct)
    ensures var read := JudgeReading(s.config, memory[4].content, env.decode, env.render);
      && (r.Failure? <==> read.Failure?)
      && (r.Failure? ==> r.error == read.error)
      && (r.Success? ==> r.value.text == read.value.1 && r.value.session.config == read.value.0)
  {
    var read := JudgeReading(s.config, memory[4].content, env.decode, env.render);
    if read.Failure? then Failure(read.error)
    else
      var (cfg, text) := read.value;
      var correct := !s.determined && Contains(text, answer);
      Success(Finish(s.(config := cfg, determined := s.determined || correct), Some(memory), text, correct))
  }

  /** `run`: the round loop, then the conclusion. */
  function RunSpec(s: Session, answer: string, maxRound: int, env: Env): (r: Result<Finish, Fault>)
    requires ConfigComplete(s.config)
    ensures r.Failure? ==> r.error != NoDelimiter
    ensures r.Success? && r.value.correct ==> Contains(r.value.text, answer)
    ensures r.Success? ==> r.value.session.determined == (s.determined || r.value.correct)
    ensures r.Success? && r.value.judge.Some? ==> r.value.correct == (!s.determined && Contains(r.value.text, answer))
  {
    var e := Rounds(s, 0, maxRound, env);
    if e.Failure? then Failure(e.error) else Conclude(e.value.s, answer, env)
  }
}
