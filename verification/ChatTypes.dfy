/** The parts of chat messages and streamed chunks the models use (src/types/chat.rs, src/types/mod.rs). */
module ChatTypes {
  import opened Prelude

  datatype ToolCall = ToolCall(index: Option<nat>, id: string, kind: string, name: string, arguments: string)

  datatype ContentPart = TextPart(text: string) | ImagePart(url: string)

  datatype Content = Text(text: string) | Parts(parts: seq<ContentPart>)

  datatype ChatMessage = ChatMessage(content: Option<Content>, toolCalls: Option<seq<ToolCall>>,
                                     reasoning: Option<string>)

  datatype Usage = Usage(promptTokens: nat, completionTokens: nat, totalTokens: nat)

  datatype Choice = Choice(index: nat, content: Option<string>, toolCalls: Option<seq<ToolCall>>)

  datatype Chunk = Chunk(choices: seq<Choice>, usage: Option<Usage>)

  /** Nothing but white space. */
  predicate Blank(s: string) {
    Trim(s) == ""
  }
}
