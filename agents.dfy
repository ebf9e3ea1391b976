/** The two objects the debate driver talks to: the language model and the
    players, each of which keeps an append-only memory of turns. */
module Agents {
  import opened Protocol

  /** The language model: `respond` gives the reply to the `calls`-th request of
      the run for a given context; every request advances `calls`. */
  class Llm {
    const respond: Oracle
    var calls: nat

    constructor(respond: Oracle)
      ensures this.respond == respond && calls == 0
    {
      this.respond := respond;
      calls := 0;
    }

    /** One request: the reply for this context at this point of the run. */
    method Complete(context: seq<Turn>) returns (text: string)
      modifies this
      ensures calls == old(calls) + 1
      ensures text == respond(old(calls), context)
    {
      text := respond(calls, context);
      calls := calls + 1;
    }
  }

  /** A `DebatePlayer`: a name and its `memory_lst`. */
  class Player {
    const name: string
    var memory: seq<Turn>

    constructor(name: string)
      ensures this.name == name && memory == []
    {
      this.name := name;
      memory := [];
    }

    /** `set_meta_prompt`: the system instruction. */
    method SetMetaPrompt(prompt: string)
      modifies this
      ensures memory == old(memory) + [Turn(System, prompt)]
    {
      memory := memory + [Turn(System, prompt)];
    }

    /** `add_event`: something said to the player. */
    method AddEvent(event: string)
      modifies this
      ensures memory == old(memory) + [Turn(User, event)]
    {
      memory := memory + [Turn(User, event)];
    }

    /** `add_memory`: something the player said. */
    method AddMemory(text: string)
      modifies this
      ensures memory == old(memory) + [Turn(Assistant, text)]
    {
      memory := memory + [Turn(Assistant, text)];
    }

    /** `ask`: the model's reply to the player's whole memory. The memory itself is
        not touched; the caller records the reply with `AddMemory`. */
    method Ask(llm: Llm) returns (text: string)
      modifies llm
      ensures llm.calls == old(llm.calls) + 1
      ensures text == llm.respond(old(llm.calls), memory)
    {
      text := llm.Complete(memory);
    }
  }
}
