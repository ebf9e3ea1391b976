/** The `Debate` object: three players, the session fields `init_agents` and
    `run` update in place, message routing between players, and the tally of
    outcomes (`debates['no_correct']` and `debates['debate_outcomes']`). Each
    step is proved to produce the state the protocol functions describe. */
module Debates {
  import opened Wrappers
  import opened Text
  import opened JsonValues
  import opened Extraction
  import opened Protocol
  import opened Agents

  /** The names of `NAME_LIST` and of the judge. */
  const AffirmativeName: string := "Affirmative side"
  const NegativeName: string := "Negative side"
  const ModeratorName: string := "Moderator"
  const JudgeName: string := "Judge"

  /** The message `speak` sends: prefixed by `<speaker>: ` unless it already is. */
  function Prefixed(speaker: string, msg: string): (r: string)
    ensures StartsWith(r, speaker + ": ")
    ensures |msg| <= |r| && r[|r| - |msg|..] == msg
    ensures StartsWith(msg, speaker + ": ") <==> r == msg
  {
    if StartsWith(msg, speaker + ": ") then msg else speaker + ": " + msg
  }

  /** Prefixing twice is prefixing once. */
  lemma PrefixedIdempotent(speaker: string, msg: string)
    ensures Prefixed(speaker, Prefixed(speaker, msg)) == Prefixed(speaker, msg)
  {
  }

  /** One entry of `debate_outcomes`. */
  datatype Transcript = Transcript(pos: seq<Turn>, neg: seq<Turn>, moderator: seq<Turn>, judge: seq<Turn>)

  /** The global `debates` record, reduced to what the driver updates. */
  class Ledger {
    var noCorrect: nat
    var outcomes: seq<Transcript>

    /** The record at program start: no correct debates, one empty transcript. */
    constructor()
      ensures noCorrect == 0 && outcomes == [Transcript([], [], [], [])]
    {
      noCorrect := 0;
      outcomes := [Transcript([], [], [], [])];
    }
  }

  class Debate {
    const answer: string
    const maxRound: int
    const llm: Llm
    const decode: Decoder
    const render: Render
    const affirmative: Player
    const negative: Player
    const moderator: Player
    var players: seq<Player>
    var config: map<string, Json>
    var affAns: string
    var negAns: string
    var affJson: string
    var negJson: string
    var modAns: Verdict
    var determined: bool

    /** The first three players are the three debaters, under their names, and no
        player is listed twice. */
    ghost predicate Valid()
      reads this
    {
      && |players| >= 3
      && players[0] == affirmative && players[1] == negative && players[2] == moderator
      && affirmative.name == AffirmativeName && negative.name == NegativeName && moderator.name == ModeratorName
      && (forall i, j :: 0 <= i < j < |players| ==> players[i] != players[j])
    }

    /** The session the protocol functions speak about. */
    ghost function State(): Session
      reads this, affirmative, negative, moderator, llm
    {
      Session(config, affirmative.memory, negative.memory, moderator.memory,
              affAns, negAns, affJson, negJson, modAns, determined, llm.calls)
    }

    /** The model, decoder and renderer this debate uses. */
    function Context(): Env
    {
      Env(llm.respond, decode, render)
    }

    /** `Debate(...)` up to `init_agents`: the players are created and the topic is
        substituted into the templates. */
    constructor(answer: string, maxRound: int, config: map<string, Json>, llm: Llm, decode: Decoder, render: Render)
      requires ConfigComplete(config)
      ensures Valid() && |players| == 3 && fresh(affirmative) && fresh(negative) && fresh(moderator)
      ensures affirmative.memory == [] && negative.memory == [] && moderator.memory == []
      ensures this.answer == answer && this.maxRound == maxRound && this.llm == llm
      ensures this.decode == decode && this.render == render
      ensures this.config == WithTopic(config) && !determined
    {
      this.answer := answer;
      this.maxRound := maxRound;
      this.llm := llm;
      this.decode := decode;
      this.render := render;
      this.config := config;
      affAns, negAns, affJson, negJson := "", "", "", "";
      modAns := Raw("");
      determined := false;
      var a := new Player(AffirmativeName);
      var n := new Player(NegativeName);
      var m := new Player(ModeratorName);
      affirmative, negative, moderator := a, n, m;
      players := [a, n, m];
      new;
      InitPrompt();
    }

    /** `prompt_replace(key)`: the topic goes into one template. */
    method PromptReplace(key: string)
      requires IsText(config, key) && IsText(config, "debate_topic")
      modifies this
      ensures config == SubstituteTopic(old(config), key)
      ensures players == old(players) && State() == old(State()).(config := config)
    {
      var template := config[key].s;
      config := config[key := Str(Replace(template, TopicSlot, config["debate_topic"].s))];
    }

    /** `init_prompt`. */
    method InitPrompt()
      requires ConfigComplete(config)
      modifies this
      ensures config == WithTopic(old(config))
      ensures players == old(players) && State() == old(State()).(config := config)
    {
      PromptReplace("player_meta_prompt");
      PromptReplace("moderator_meta_prompt");
      PromptReplace("affirmative_prompt");
      PromptReplace("judge_prompt_last2");
    }

    /** `init_agents`: meta prompts and the opening round. */
    method InitAgents() returns (fault: Option<Fault>)
      requires Valid() && ConfigComplete(config)
      modifies this, affirmative, negative, moderator, llm
      ensures Valid() && players == old(players)
      ensures var o := Opening(old(State()), Context());
        && (fault.None? <==> o.Success?)
        && (o.Success? ==> State() == o.value)
        && (o.Failure? ==> fault == Some(o.error))
    {
      assert affirmative != negative && affirmative != moderator && negative != moderator by {
        assert players[0] != players[1] && players[0] != players[2] && players[1] != players[2];
      }
      var meta := config["player_meta_prompt"].s + " " + config["megaprompt"].s;
      affirmative.SetMetaPrompt(meta);
      negative.SetMetaPrompt(meta);
      moderator.SetMetaPrompt(config["moderator_meta_prompt"].s);
      assert State() == MetaPrompts(old(State()));
      fault := AffirmativeOpens();
      if fault.None? {
        fault := NegativeOpens();
        if fault.None? {
          fault := ModeratorAsk("first", true);
        }
      }
    }

    /** The affirmative's opening answer, extracted and kept as `base_answer`. */
    method AffirmativeOpens() returns (fault: Option<Fault>)
      requires Valid() && ConfigComplete(config)
      modifies this, affirmative, llm
      ensures Valid() && players == old(players)
      ensures var o := OpenAffirmative(old(State()), Context());
        && (fault.None? <==> o.Success?)
        && (o.Success? ==> State() == o.value)
        && (o.Failure? ==> fault == Some(o.error))
    {
      affirmative.AddEvent(config["affirmative_prompt"].s);
      affAns := affirmative.Ask(llm);
      var extracted := ExtractAnswer(affAns);
      if extracted.Failure? {
        return Some(ExtractFailed(extracted.error));
      }
      affJson := extracted.value;
      affirmative.AddMemory(affAns);
      config := config["base_answer" := Str(affAns)];
      return None;
    }

    /** The negative's opening answer to the affirmative's. */
    method NegativeOpens() returns (fault: Option<Fault>)
      requires Valid() && ConfigComplete(config)
      modifies this, negative, llm
      ensures Valid() && players == old(players)
      ensures var o := OpenNegative(old(State()), Context());
        && (fault.None? <==> o.Success?)
        && (o.Success? ==> State() == o.value)
        && (o.Failure? ==> fault == Some(o.error))
    {
      negative.AddEvent(Replace(config["negative_prompt"].s, AffSlot, affAns));
      negAns := negative.Ask(llm);
      var extracted := ExtractAnswer(negAns);
      if extracted.Failure? {
        return Some(ExtractFailed(extracted.error));
      }
      negJson := extracted.value;
      negative.AddMemory(negAns);
      return None;
    }

    /** The consensus test at the top of each round; its exceptions are caught. */
    method ConsensusCheck()
      modifies this
      ensures modAns == ApplyConsensus(old(modAns), affJson, negJson, decode)
      ensures players == old(players) && State() == old(State()).(verdict := modAns)
    {
      var aff := decode(affJson);
      var neg := decode(negJson);
      if aff.Some? && neg.Some? {
        var x := Field(aff.value, AnswerKey);
        var y := Field(neg.value, AnswerKey);
        if x.Some? && y.Some? && x.value == y.value && modAns.Parsed? && modAns.value.Obj? {
          modAns := Parsed(Obj(modAns.value.fields[DebateAnswerKey := x.value]));
        }
      }
    }

    /** The `else` branch of the round loop: one rebuttal round. */
    method RebuttalRound(round: nat) returns (fault: Option<Fault>)
      requires Valid() && ConfigComplete(config)
      modifies this, affirmative, negative, moderator, llm
      ensures Valid() && players == old(players)
      ensures var o := Rebuttal(old(State()), round, Context());
        && (fault.None? <==> o.Success?)
        && (o.Success? ==> State() == o.value)
        && (o.Failure? ==> fault == Some(o.error))
    {
      fault := AffirmativeRebuts();
      if fault.None? {
        fault := NegativeRebuts();
        if fault.None? {
          var ordinal := RoundLabel(round + 2);
          if ordinal.None? {
            return Some(NoRoundLabel(round + 2));
          }
          fault := ModeratorAsk(ordinal.value, false);
        }
      }
    }

    /** The affirmative answers the negative's latest answer. */
    method AffirmativeRebuts() returns (fault: Option<Fault>)
      requires Valid() && ConfigComplete(config)
      modifies this, affirmative, llm
      ensures Valid() && players == old(players)
      ensures var o := RebutAffirmative(old(State()), Context());
        && (fault.None? <==> o.Success?)
        && (o.Success? ==> State() == o.value)
        && (o.Failure? ==> fault == Some(o.error))
    {
      affirmative.AddEvent(Replace(config["debate_prompt"].s, OppoSlot, negAns));
      affAns := affirmative.Ask(llm);
      var extracted := ExtractAnswer(affAns);
      if extracted.Failure? {
        return Some(ExtractFailed(extracted.error));
      }
      affJson := extracted.value;
      affirmative.AddMemory(affAns);
      return None;
    }

    /** The negative answers the affirmative's new answer; its stored extraction
        is taken from its previous answer before that is replaced. */
    method NegativeRebuts() returns (fault: Option<Fault>)
      requires Valid() && ConfigComplete(config)
      modifies this, negative, llm
      ensures Valid() && players == old(players)
      ensures var o := RebutNegative(old(State()), Context());
        && (fault.None? <==> o.Success?)
        && (o.Success? ==> State() == o.value)
        && (o.Failure? ==> fault == Some(o.error))
    {
      negative.AddEvent(Replace(config["debate_prompt"].s, OppoSlot, affAns));
      var extracted := ExtractAnswer(negAns);
      if extracted.Failure? {
        return Some(ExtractFailed(extracted.error));
      }
      negJson := extracted.value;
      negAns := negative.Ask(llm);
      negative.AddMemory(negAns);
      return None;
    }

    /** The moderator's turn of a round: the moderator prompt with both latest
        answers and the round's ordinal; a reply that starts with `{` (and, for the
        opening, ends with `}`) is decoded. */
    method ModeratorAsk(ordinal: string, needClose: bool) returns (fault: Option<Fault>)
      requires Valid() && ConfigComplete(config)
      modifies this, moderator, llm
      ensures Valid() && players == old(players)
      ensures var o := ModeratorTurn(old(State()), ordinal, needClose, Context());
        && (fault.None? <==> o.Success?)
        && (o.Success? ==> State() == o.value)
        && (o.Failure? ==> fault == Some(o.error))
    {
      ModeratorTurnEffect(State(), ordinal, needClose, Context());
      moderator.AddEvent(ModeratorEvent(config, affAns, negAns, ordinal));
      var reply := moderator.Ask(llm);
      moderator.AddMemory(reply);
      modAns := Raw(reply);
      if reply == [] {
        return Some(EmptyReply);
      }
      if reply[0] == '{' && (!needClose || reply[|reply| - 1] == '}') {
        var decoded := decode(reply);
        if decoded.None? {
          return Some(Undecodable);
        }
        modAns := Parsed(decoded.value);
      }
      return None;
    }

    /** `run`: the round loop, then either the settled verdict or the judge, then
        `print_answer`. */
    method Run(ledger: Ledger) returns (fault: Option<Fault>)
      requires Valid() && ConfigComplete(config)
      modifies this, affirmative, negative, moderator, llm, ledger
      ensures Valid()
      ensures var r := RunSpec(old(State()), answer, maxRound, Context());
        && (fault.None? <==> r.Success?)
        && (r.Failure? ==> fault == Some(r.error))
        && (r.Success? ==>
              && State() == r.value.session
              && ledger.noCorrect == old(ledger.noCorrect) + (if r.value.correct then 1 else 0)
              && ledger.outcomes == old(ledger.outcomes) + [Transcript(affirmative.memory, negative.memory, moderator.memory, [])]
              && (r.value.judge.None? ==> players == old(players))
              && (r.value.judge.Some? ==>
                    && |players| == |old(players)| + 1 && players[..|old(players)|] == old(players)
                    && fresh(players[|old(players)|]) && players[|old(players)|].name == JudgeName
                    && players[|old(players)|].memory == r.value.judge.value))
    {
      fault := DebateRounds();
      if fault.Some? {
        return;
      }
      fault := Settle(ledger);
      if fault.Some? {
        return;
      }
      PrintAnswer(ledger);
    }

    /** The `for round in range(max_round - 1)` loop with its early `break`. */
    method DebateRounds() returns (fault: Option<Fault>)
      requires Valid() && ConfigComplete(config)
      modifies this, affirmative, negative, moderator, llm
      ensures Valid() && players == old(players)
      ensures var e := Rounds(old(State()), 0, maxRound, Context());
        && (fault.None? <==> e.Success?)
        && (e.Failure? ==> fault == Some(e.error))
        && (e.Success? ==> State() == e.value.s)
    {
      ghost var env := Context();
      ghost var target := Rounds(State(), 0, maxRound, env);
      var round: nat := 0;
      while round < maxRound - 1
        invariant Valid() && ConfigComplete(config) && players == old(players)
        invariant Rounds(State(), round, maxRound, env) == target
        decreases maxRound - 1 - round
      {
        ConsensusCheck();
        var verdict := VerdictAnswer(modAns);
        if verdict.None? {
          assert target == Failure(VerdictLookup);
          return Some(VerdictLookup);
        }
        if verdict.value != Str("") {
          assert target == Success(LoopEnd(State(), round, true));
          break;
        }
        fault := RebuttalRound(round);
        if fault.Some? {
          assert target == Failure(fault.value);
          return;
        }
        round := round + 1;
      }
      assert target.Success? && target.value.s == State();
      fault := None;
    }

    /** After the loop: a non-empty `debate_answer` is merged into the configuration
        and checked against the ground truth; an empty one goes to the judge. */
    method Settle(ledger: Ledger) returns (fault: Option<Fault>)
      requires Valid() && ConfigComplete(config)
      modifies this, llm, ledger
      ensures Valid()
      ensures var r := Conclude(old(State()), answer, Context());
        && (fault.None? <==> r.Success?)
        && (r.Failure? ==> fault == Some(r.error))
        && (r.Success? ==>
              && State() == r.value.session
              && ledger.noCorrect == old(ledger.noCorrect) + (if r.value.correct then 1 else 0)
              && ledger.outcomes == old(ledger.outcomes)
              && (r.value.judge.None? ==> players == old(players))
              && (r.value.judge.Some? ==>
                    && |players| == |old(players)| + 1 && players[..|old(players)|] == old(players)
                    && fresh(players[|old(players)|]) && players[|old(players)|].name == JudgeName
                    && players[|old(players)|].memory == r.value.judge.value))
    {
      var verdict := VerdictAnswer(modAns);
      if verdict.None? {
        return Some(VerdictLookup);
      }
      if verdict.value != Str("") {
        config := config + modAns.value.fields;
        config := config["success" := Bool(true)];
        if Contains(PyStr(verdict.value, render), answer) {
          ledger.noCorrect := ledger.noCorrect + 1;
          determined := true;
        }
        return None;
      }
      fault := JudgeDecides(ledger);
    }

    /** The judge branch: a fresh `Judge` player reads both sides' opening answers,
        lists the candidates, then picks one; its memory joins the players. */
    method JudgeDecides(ledger: Ledger) returns (fault: Option<Fault>)
      requires Valid() && ConfigComplete(config)
      modifies this, llm, ledger
      ensures Valid()
      ensures var r := Judge(old(State()), answer, Context());
        && (fault.None? <==> r.Success?)
        && (r.Failure? ==> fault == Some(r.error))
        && (r.Success? ==>
              && Valid() && State() == r.value.session
              && ledger.noCorrect == old(ledger.noCorrect) + (if r.value.correct then 1 else 0)
              && ledger.outcomes == old(ledger.outcomes)
              && |players| == |old(players)| + 1 && players[..|old(players)|] == old(players)
              && fresh(players[|old(players)|]) && players[|old(players)|].name == JudgeName
              && players[|old(players)|].memory == r.value.judge.value)
    {
      var judge := new Player(JudgeName);
      if |affirmative.memory| < 3 || |negative.memory| < 3 {
        return Some(ShortMemory);
      }
      JudgeConsults(judge);
      fault := JudgeAnswers(judge, ledger);
    }

    /** The judge's conversation with the model. */
    method JudgeConsults(judge: Player)
      requires ConfigComplete(config) && |affirmative.memory| >= 3 && |negative.memory| >= 3
      requires judge.memory == [] && judge !in {affirmative, negative, moderator}
      modifies judge, llm
      ensures judge.memory == JudgeMemory(old(State()), Context())
      ensures State() == old(State()).(calls := old(State()).calls + 2)
    {
      var affText := affirmative.memory[2].content;
      var negText := negative.memory[2].content;
      judge.SetMetaPrompt(config["moderator_meta_prompt"].s);
      judge.AddEvent(JudgeEvent(config, affText, negText));
      assert judge.memory == [Turn(System, config["moderator_meta_prompt"].s), Turn(User, JudgeEvent(config, affText, negText))];
      var reply := judge.Ask(llm);
      judge.AddMemory(reply);
      judge.AddEvent(config["judge_prompt_last2"].s);
      assert judge.memory == [Turn(System, config["moderator_meta_prompt"].s), Turn(User, JudgeEvent(config, affText, negText))] + [Turn(Assistant, reply), Turn(User, config["judge_prompt_last2"].s)];
      reply := judge.Ask(llm);
      judge.AddMemory(reply);
    }

    /** The judge's last reply decides; the judge joins the players. */
    method JudgeAnswers(judge: Player, ledger: Ledger) returns (fault: Option<Fault>)
      requires Valid() && |judge.memory| == 5 && judge !in players
      modifies this, ledger
      ensures Valid()
      ensures var r := JudgeRules(old(State()), judge.memory, answer, Context());
        && (fault.None? <==> r.Success?)
        && (r.Failure? ==> fault == Some(r.error))
        && (r.Success? ==>
              && Valid() && State() == r.value.session
              && ledger.noCorrect == old(ledger.noCorrect) + (if r.value.correct then 1 else 0)
              && ledger.outcomes == old(ledger.outcomes)
              && players == old(players) + [judge])
    {
      var text;
      fault, text := ReadJudgeReply(judge.memory[4].content);
      if fault.Some? {
        return;
      }
      AddPlayer(judge);
      if Contains(text, answer) && !determined {
        ledger.noCorrect := ledger.noCorrect + 1;
        determined := true;
      }
    }

    /** Reading the judge's last reply: a JSON reply with a non-empty `debate_answer`
        sets `success` and is merged into the configuration. */
    method ReadJudgeReply(reply: string) returns (fault: Option<Fault>, text: string)
      requires Valid()
      modifies this
      ensures Valid() && players == old(players)
      ensures var r := JudgeReading(old(config), reply, decode, render);
        && (fault.None? <==> r.Success?)
        && (r.Failure? ==> fault == Some(r.error))
        && (r.Success? ==> config == r.value.0 && text == r.value.1 && State() == old(State()).(config := config))
    {
      fault, text := None, reply;
      if reply == [] {
        return Some(EmptyReply), text;
      }
      if reply[0] == '{' && reply[|reply| - 1] == '}' {
        var decoded := decode(reply);
        if decoded.None? {
          return Some(Undecodable), text;
        }
        var d := Field(decoded.value, DebateAnswerKey);
        if d.None? {
          return Some(VerdictLookup), text;
        }
        if d.value != Str("") {
          config := config["success" := Bool(true)];
          config := config + decoded.value.fields;
        }
        text := PyStr(decoded.value, render);
      }
    }

    /** `self.players.append(p)` for a player not yet listed. */
    method AddPlayer(p: Player)
      requires Valid() && p !in players
      modifies this
      ensures Valid() && players == old(players) + [p]
      ensures State() == old(State())
    {
      players := players + [p];
      forall i, j | 0 <= i < j < |players|
        ensures players[i] != players[j]
      {
        if j == |players| - 1 {
          assert players[i] in old(players);
        } else {
          assert players[i] == old(players)[i] && players[j] == old(players)[j];
        }
      }
    }

    /** `print_answer`, as far as it changes state: the three debaters' memories are
        appended to the outcomes with an empty judge memory. */
    method PrintAnswer(ledger: Ledger)
      modifies ledger
      ensures ledger.noCorrect == old(ledger.noCorrect)
      ensures ledger.outcomes == old(ledger.outcomes) + [Transcript(affirmative.memory, negative.memory, moderator.memory, [])]
    {
      ledger.outcomes := ledger.outcomes + [Transcript(affirmative.memory, negative.memory, moderator.memory, [])];
    }

    /** `broadcast`: every player hears the message once. */
    method Broadcast(msg: string)
      requires Valid()
      modifies players
      ensures forall i :: 0 <= i < |players| ==> players[i].memory == old(players[i].memory) + [Turn(User, msg)]
    {
      var i := 0;
      while i < |players|
        invariant 0 <= i <= |players|
        invariant forall j :: 0 <= j < i ==> players[j].memory == old(players[j].memory) + [Turn(User, msg)]
        invariant forall j :: i <= j < |players| ==> players[j].memory == old(players[j].memory)
      {
        players[i].AddEvent(msg);
        i := i + 1;
      }
    }

    /** `speak`: every player not named `speaker` hears the prefixed message once;
        the speaker, and anyone sharing its name, hears nothing. */
    method Speak(speaker: string, msg: string)
      requires Valid()
      modifies players
      ensures forall i :: 0 <= i < |players| ==>
        players[i].memory == old(players[i].memory) +
          (if players[i].name != speaker then [Turn(User, Prefixed(speaker, msg))] else [])
    {
      var text := msg;
      if !StartsWith(msg, speaker + ": ") {
        text := speaker + ": " + msg;
      }
      var i := 0;
      while i < |players|
        invariant 0 <= i <= |players|
        invariant forall j :: 0 <= j < i ==>
          players[j].memory == old(players[j].memory) + (if players[j].name != speaker then [Turn(User, text)] else [])
        invariant forall j :: i <= j < |players| ==> players[j].memory == old(players[j].memory)
      {
        if players[i].name != speaker {
          players[i].AddEvent(text);
        }
        i := i + 1;
      }
    }

    /** `ask_and_speak`: the player answers, remembers its answer, and speaks it. */
    method AskAndSpeak(player: Player)
      requires Valid()
      modifies players, player, llm
      ensures var reply := llm.respond(old(llm.calls), old(player.memory));
        && llm.calls == old(llm.calls) + 1
        && player.memory == old(player.memory) + [Turn(Assistant, reply)]
        && forall i :: 0 <= i < |players| && players[i] != player ==>
             players[i].memory == old(players[i].memory) +
               (if players[i].name != player.name then [Turn(User, Prefixed(player.name, reply))] else [])
    {
      var reply := player.Ask(llm);
      player.AddMemory(reply);
      Speak(player.name, reply);
    }
  }
}
