/**
 * The chat-completion calls of summarizer.py and pdf_reader.py. The model
 * service is an oracle: a total function from the call that is made to the
 * `message.content` of every choice it returns, in order.
 */
module Llm {
  import opened Wrappers
  import opened Strings

  /** One call to the chat-completion endpoint: the system and user
      messages, the sampling temperature, the token limit, and whether JSON
      mode (`response_format` of type `json_object`) is requested. The model
      name and the fixed `top_p`, `frequency_penalty` and `presence_penalty`
      are the same on every call and are not recorded. */
  datatype Call = Call(system: string, user: string, temperature: real, maxTokens: nat, jsonMode: bool)

  /** The defaults of `gen_gpt_chat_completion` and `gen_gpt_chat_json`. */
  const DefaultTemperature: real := 0.1
  const DefaultMaxTokens: nat := 2048

  /** `response.choices[-1].message.content.strip()`: the last choice with
      surrounding whitespace removed; `None` is the `IndexError` of a
      response without choices. */
  function LastChoice(choices: seq<string>): (r: Option<string>)
    ensures r.None? <==> choices == []
    ensures r.Some? ==> r.value == Strip(choices[|choices| - 1], Whitespace)
  {
    if choices == [] then None else Some(Strip(choices[|choices| - 1], Whitespace))
  }
}
