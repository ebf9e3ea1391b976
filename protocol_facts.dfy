/** What the debate protocol guarantees across rounds: memory only grows, round
    labels run out only past round ten, agreement ends the debate at once, and
    the judge is called only on an empty verdict and reads the opening answers. */
module ProtocolFacts {
  import opened Wrappers
  import opened Text
  import opened JsonValues
  import opened Extraction
  import opened Protocol

  /** Growth composes: `i` rounds followed by `j` rounds are `i + j` rounds. */
  lemma GrownTrans(a: Session, b: Session, c: Session, i: int, j: int)
    requires Grown(a, b, i) && Grown(b, c, j)
    ensures Grown(a, c, i + j)
  {
    assert c.aff[..|a.aff|] == c.aff[..|b.aff|][..|a.aff|];
    assert c.neg[..|a.neg|] == c.neg[..|b.neg|][..|a.neg|];
    assert c.moderator[..|a.moderator|] == c.moderator[..|b.moderator|][..|a.moderator|];
  }

  /** Memory is append-only over the round loop: every rebuttal round played adds
      an event and an answer to each of the three memories and costs three model
      requests, and nothing already in a memory changes. */
  lemma {:induction false} RoundsGrow(s: Session, round: nat, maxRound: int, env: Env)
    requires ConfigComplete(s.config)
    requires Rounds(s, round, maxRound, env).Success?
    ensures Grown(s, Rounds(s, round, maxRound, env).value.s, Rounds(s, round, maxRound, env).value.round - round)
    decreases Iterations(round, maxRound)
  {
    if maxRound - 1 > round {
      var s1 := s.(verdict := ApplyConsensus(s.verdict, s.affJson, s.negJson, env.decode));
      var answer := VerdictAnswer(s1.verdict);
      if answer.value != Str("") {
        assert s1.aff[..|s.aff|] == s.aff && s1.neg[..|s.neg|] == s.neg;
        assert s1.moderator[..|s.moderator|] == s.moderator;
      } else {
        var s2 := Rebuttal(s1, round, env).value;
        RebuttalGrows(s1, round, env);
        RoundsGrow(s2, round + 1, maxRound, env);
        GrownTrans(s, s2, Rounds(s2, round + 1, maxRound, env).value.s, 1,
                   Rounds(s2, round + 1, maxRound, env).value.round - (round + 1));
      }
    } else {
      assert s.aff[..|s.aff|] == s.aff && s.neg[..|s.neg|] == s.neg;
      assert s.moderator[..|s.moderator|] == s.moderator;
    }
  }

  /** The loop asks for the label of round `round + 2` only while `round < max_round - 1`,
      so a missing label can only be one past ten and no later than `max_round`. */
  lemma {:induction false} MissingLabelPastTen(s: Session, round: nat, maxRound: int, env: Env, n: int)
    requires ConfigComplete(s.config)
    requires Rounds(s, round, maxRound, env) == Failure(NoRoundLabel(n))
    ensures 10 < n <= maxRound
    decreases Iterations(round, maxRound)
  {
    var s1 := s.(verdict := ApplyConsensus(s.verdict, s.affJson, s.negJson, env.decode));
    var s2 := Rebuttal(s1, round, env);
    if s2.Success? {
      MissingLabelPastTen(s2.value, round + 1, maxRound, env, n);
    }
  }

  /** A loop that goes on past an unsettled round does so from the state the
      rebuttal left. */
  lemma RebuttalStep(s: Session, round: nat, maxRound: int, env: Env) returns (s2: Session)
    requires ConfigComplete(s.config)
    requires round < maxRound - 1
    requires Rounds(s, round, maxRound, env).Success?
    requires VerdictAnswer(ApplyConsensus(s.verdict, s.affJson, s.negJson, env.decode)) == Some(Str(""))
    ensures ConfigComplete(s2.config) && round + 2 <= 10
    ensures Rounds(s, round, maxRound, env) == Rounds(s2, round + 1, maxRound, env)
  {
    var s1 := s.(verdict := ApplyConsensus(s.verdict, s.affJson, s.negJson, env.decode));
    s2 := Rebuttal(s1, round, env).value;
  }

  /** Round 11 has no label, so the loop never gets past index 9: a loop that
      completes from an index of at most 9 stops at an index of at most 9. */
  lemma {:induction false} RoundsStopByNine(s: Session, round: nat, maxRound: int, env: Env)
    requires ConfigComplete(s.config)
    requires round <= 9
    requires Rounds(s, round, maxRound, env).Success?
    ensures Rounds(s, round, maxRound, env).value.round <= 9
    decreases Iterations(round, maxRound)
  {
    if round < maxRound - 1 {
      var s1 := s.(verdict := ApplyConsensus(s.verdict, s.affJson, s.negJson, env.decode));
      var answer := VerdictAnswer(s1.verdict);
      if answer.value == Str("") {
        var s2 := RebuttalStep(s, round, maxRound, env);
        RoundsStopByNine(s2, round + 1, maxRound, env);
      }
    }
  }

  /** A run whose loop ran to its end without settling had `max_round <= 10`: with
      more rounds, only a debate settled early gets past the loop. */
  lemma LastRoundNeedsTen(s: Session, maxRound: int, env: Env)
    requires ConfigComplete(s.config)
    requires Rounds(s, 0, maxRound, env).Success?
    requires !Rounds(s, 0, maxRound, env).value.settled
    ensures maxRound <= 10
  {
    RoundsStopByNine(s, 0, maxRound, env);
  }

  /** With at most ten rounds (the default is three) a debate never fails for want
      of a round label. */
  lemma LabelsSufficeUpToTen(s: Session, answer: string, maxRound: int, env: Env)
    requires ConfigComplete(s.config)
    requires maxRound <= 10
    ensures !(RunSpec(s, answer, maxRound, env).Failure? && RunSpec(s, answer, maxRound, env).error.NoRoundLabel?)
  {
    var e := Rounds(s, 0, maxRound, env);
    if e.Failure? && e.error.NoRoundLabel? {
      MissingLabelPastTen(s, 0, maxRound, env, e.error.round);
    }
  }

  /** The loop body runs at most `max_round - 1` times: the rebuttal rounds played
      and the model requests made by the loop are bounded by it. */
  lemma LoopBound(s: Session, maxRound: int, env: Env)
    requires ConfigComplete(s.config)
    requires Rounds(s, 0, maxRound, env).Success?
    ensures var e := Rounds(s, 0, maxRound, env).value;
      e.round <= Iterations(0, maxRound) && e.s.calls <= s.calls + 3 * Iterations(0, maxRound)
  {
    RoundsGrow(s, 0, maxRound, env);
  }

  /** Consensus: when both stored extracted answers decode to the same non-empty
      `answer` and the verdict is a dict, that answer becomes `debate_answer` and
      the loop stops in the same iteration, with no request and no memory change. */
  lemma ConsensusStopsLoop(s: Session, round: nat, maxRound: int, env: Env)
    requires ConfigComplete(s.config)
    requires round < maxRound - 1
    requires s.verdict.Parsed? && s.verdict.value.Obj?
    requires Agreement(s.affJson, s.negJson, env.decode).Some?
    requires Agreement(s.affJson, s.negJson, env.decode).value != Str("")
    ensures var r := Rounds(s, round, maxRound, env);
      && r.Success? && r.value.settled && r.value.round == round
      && VerdictAnswer(r.value.s.verdict) == Agreement(s.affJson, s.negJson, env.decode)
      && r.value.s == s.(verdict := r.value.s.verdict)
  {
  }

  /** Consensus right after the opening settles the whole debate without a judge:
      the agreed answer is the result and it is counted correct exactly when it
      contains the ground truth. */
  lemma ConsensusDecidesDebate(s: Session, answer: string, maxRound: int, env: Env)
    requires ConfigComplete(s.config)
    requires 1 < maxRound
    requires s.verdict.Parsed? && s.verdict.value.Obj?
    requires Agreement(s.affJson, s.negJson, env.decode).Some?
    requires Agreement(s.affJson, s.negJson, env.decode).value != Str("")
    ensures var r := RunSpec(s, answer, maxRound, env);
      && r.Success? && r.value.judge.None? && r.value.session.calls == s.calls
      && r.value.session.aff == s.aff && r.value.session.neg == s.neg && r.value.session.moderator == s.moderator
      && r.value.text == PyStr(Agreement(s.affJson, s.negJson, env.decode).value, env.render)
      && (r.value.correct <==> Contains(r.value.text, answer))
  {
    ConsensusStopsLoop(s, 0, maxRound, env);
  }

  /** The judge is called only when the loop ran to its end and left
      `debate_answer` empty; a debate the loop settled never reaches it. */
  lemma {:induction false} JudgeOnlyOnEmptyVerdict(s: Session, answer: string, maxRound: int, env: Env)
    requires ConfigComplete(s.config)
    requires RunSpec(s, answer, maxRound, env).Success?
    requires RunSpec(s, answer, maxRound, env).value.judge.Some?
    ensures var e := Rounds(s, 0, maxRound, env);
      e.Success? && !e.value.settled && VerdictAnswer(e.value.s.verdict) == Some(Str(""))
  {
    var e := Rounds(s, 0, maxRound, env);
    assert RunSpec(s, answer, maxRound, env) == Conclude(e.value.s, answer, env);
  }

  /** A debate is counted correct at most once, and only when the ground truth is
      contained in the text of its final answer. */
  lemma CountedOnlyWhenContained(s: Session, answer: string, maxRound: int, env: Env)
    requires ConfigComplete(s.config)
    requires RunSpec(s, answer, maxRound, env).Success?
    ensures var f := RunSpec(s, answer, maxRound, env).value;
      f.correct ==> Contains(f.text, answer) && f.session.determined
  {
  }

  /** After an opening from empty memories, each side's third memory entry is its
      opening answer, and the round loop keeps it there: the judge weighs the
      opening answers, not the latest ones. */
  lemma JudgeReadsOpeningAnswers(s: Session, answer: string, maxRound: int, env: Env)
    requires ConfigComplete(s.config)
    requires s.aff == [] && s.neg == []
    requires Opening(s, env).Success?
    requires Rounds(Opening(s, env).value, 0, maxRound, env).Success?
    ensures var t := Opening(s, env).value;
      var e := Rounds(t, 0, maxRound, env).value;
      var j := Judge(e.s, answer, env);
      && j != Failure(ShortMemory)
      && (j.Success? ==> j.value.judge.value[1] == Turn(User, JudgeEvent(t.config, t.affAns, t.negAns)))
  {
    var t := Opening(s, env).value;
    var e := Rounds(t, 0, maxRound, env).value;
    assert |e.s.aff| >= 3 && |e.s.neg| >= 3 && e.s.config == t.config &&
           e.s.aff[2] == Turn(Assistant, t.affAns) && e.s.neg[2] == Turn(Assistant, t.negAns) by {
      OpeningGrows(s, env);
      RoundsGrow(t, 0, maxRound, env);
      assert e.s.aff[2] == e.s.aff[..|t.aff|][2];
      assert e.s.neg[2] == e.s.neg[..|t.neg|][2];
    }
  }

  /** After the opening, the judge's reading of the third memory entries cannot fail. */
  lemma NoShortMemoryAfterOpening(s: Session, answer: string, maxRound: int, env: Env)
    requires ConfigComplete(s.config)
    requires Opening(s, env).Success?
    ensures RunSpec(Opening(s, env).value, answer, maxRound, env) != Failure(ShortMemory)
  {
    var t := Opening(s, env).value;
    var e := Rounds(t, 0, maxRound, env);
    if e.Success? {
      OpeningGrows(s, env);
      RoundsGrow(t, 0, maxRound, env);
    }
  }

  /** `init_prompt` rewrites exactly the four topic-bearing templates and leaves
      every other entry, and the completeness of the configuration, as it was. */
  lemma WithTopicFrame(cfg: map<string, Json>)
    requires ConfigComplete(cfg)
    ensures var c := WithTopic(cfg);
      && ConfigComplete(c) && c.Keys == cfg.Keys
      && (forall k :: k in cfg && k !in {"player_meta_prompt", "moderator_meta_prompt", "affirmative_prompt", "judge_prompt_last2"}
                      ==> c[k] == cfg[k])
      && c["player_meta_prompt"] == Str(Replace(Template(cfg, "player_meta_prompt"), TopicSlot, Template(cfg, "debate_topic")))
      && c["moderator_meta_prompt"] == Str(Replace(Template(cfg, "moderator_meta_prompt"), TopicSlot, Template(cfg, "debate_topic")))
      && c["affirmative_prompt"] == Str(Replace(Template(cfg, "affirmative_prompt"), TopicSlot, Template(cfg, "debate_topic")))
      && c["judge_prompt_last2"] == Str(Replace(Template(cfg, "judge_prompt_last2"), TopicSlot, Template(cfg, "debate_topic")))
  {
  }

  /** Any of the four rewritten templates that does not mention the topic
      placeholder survives `init_prompt` unchanged. */
  lemma WithTopicKeepsPlainTemplate(cfg: map<string, Json>, key: string)
    requires ConfigComplete(cfg)
    requires key == "player_meta_prompt" || key == "moderator_meta_prompt" ||
             key == "affirmative_prompt" || key == "judge_prompt_last2"
    requires !Contains(Template(cfg, key), TopicSlot)
    ensures WithTopic(cfg)[key] == cfg[key]
  {
    WithTopicFrame(cfg);
    ReplaceAbsent(Template(cfg, key), TopicSlot, Template(cfg, "debate_topic"));
  }
}
