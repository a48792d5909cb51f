/** The agent's history in the formats of two providers. */
module MessageTranslation {
  import opened Text
  import opened AgentLoop

  /** What the translation needs besides the history: a name without the blanks around it, JSON
      arguments as an object, and an id for a call that has none, by how many messages are left
      and which call of its message it is. */
  datatype Outside<Input> = Outside(strip: string -> string, parse: string -> Input, uuid: (nat, nat) -> string)

  predicate Named<I>(out: Outside<I>, call: Call) { out.strip(call.name) != "" }

  function IdOf<I>(out: Outside<I>, left: nat, k: nat, call: Call): string {
    if call.id == "" then "tool_" + out.uuid(left, k) else call.id
  }

  function SystemText(m: Message): seq<string> {
    if m.System? && m.text != "" then [m.text] else []
  }

  /** The texts of the system messages. */
  function SystemTexts(ms: seq<Message>): seq<string> {
    if ms == [] then [] else SystemText(ms[0]) + SystemTexts(ms[1..])
  }

  lemma Shift<T>(done: seq<T>, one: seq<T>, rest: seq<T>)
    ensures done + one + rest == done + (one + rest)
  {
  }

  // ---------------------------------------------------------------------------------------
  // Anthropic
  // ---------------------------------------------------------------------------------------

  datatype Block<I> = TextBlock(text: string) | ToolUse(id: string, name: string, input: I)

  datatype AMessage<I> = AUser(text: string) | AAssistant(blocks: seq<Block<I>>) | AResult(id: string, text: string)

  function Use<I>(call: Call, out: Outside<I>, left: nat, k: nat): seq<Block<I>> {
    if !Named(out, call) then []
    else [ToolUse(IdOf(out, left, k, call), out.strip(call.name), out.parse(call.arguments))]
  }

  /** The tool uses of the calls from the k-th on. */
  function Uses<I>(calls: seq<Call>, out: Outside<I>, left: nat, k: nat): seq<Block<I>> {
    if calls == [] then [] else Use(calls[0], out, left, k) + Uses(calls[1..], out, left, k + 1)
  }

  function TextBlocks<I>(text: string): seq<Block<I>> {
    if text == "" then [] else [TextBlock(text)]
  }

  function ABlocks<I>(m: Message, out: Outside<I>, left: nat): seq<Block<I>>
    requires m.Assistant?
  {
    var blocks := TextBlocks(m.text) + Uses(m.calls, out, left, 0);
    if blocks == [] then [TextBlock("")] else blocks
  }

  function AOne<I>(m: Message, out: Outside<I>, left: nat): seq<AMessage<I>> {
    match m
    case System(_) => []
    case Assistant(_, _) => [AAssistant(ABlocks(m, out, left))]
    case Tool(id, text) => if id == "" then [] else [AResult(id, text)]
    case User(text) => [AUser(text)]
  }

  function AAll<I>(ms: seq<Message>, out: Outside<I>): seq<AMessage<I>> {
    if ms == [] then [] else AOne(ms[0], out, |ms|) + AAll(ms[1..], out)
  }

  method ToAnthropic<I>(ms: seq<Message>, out: Outside<I>) returns (system: string, converted: seq<AMessage<I>>)
    ensures system == Join(SystemTexts(ms), "\n\n")
    ensures converted == if AAll(ms, out) == [] then [AUser("")] else AAll(ms, out)
  {
    var parts: seq<string> := [];
    converted := [];
    for i := 0 to |ms|
      invariant parts + SystemTexts(ms[i..]) == SystemTexts(ms)
      invariant converted + AAll(ms[i..], out) == AAll(ms, out)
    {
      assert ms[i..][1..] == ms[i + 1..];
      Shift(parts, SystemText(ms[i]), SystemTexts(ms[i + 1..]));
      Shift(converted, AOne(ms[i], out, |ms| - i), AAll(ms[i + 1..], out));
      parts := parts + SystemText(ms[i]);
      var one := AnthropicMessage(ms[i], out, |ms| - i);
      converted := converted + one;
    }
    assert ms[|ms|..] == [] && parts == SystemTexts(ms);
    if converted == [] { converted := [AUser("")]; }
    system := Join(parts, "\n\n");
  }

  method AnthropicMessage<I>(m: Message, out: Outside<I>, left: nat) returns (one: seq<AMessage<I>>)
    ensures one == AOne(m, out, left)
  {
    match m {
      case System(_) => one := [];
      case Assistant(_, _) =>
        var blocks := AssistantBlocks(m, out, left);
        one := [AAssistant(blocks)];
      case Tool(id, text) => one := if id == "" then [] else [AResult(id, text)];
      case User(text) => one := [AUser(text)];
    }
  }

  method AssistantBlocks<I>(m: Message, out: Outside<I>, left: nat) returns (blocks: seq<Block<I>>)
    requires m.Assistant?
    ensures blocks == ABlocks(m, out, left)
  {
    blocks := TextBlocks(m.text);
    for k := 0 to |m.calls|
      invariant blocks + Uses(m.calls[k..], out, left, k) == TextBlocks(m.text) + Uses(m.calls, out, left, 0)
    {
      assert m.calls[k..][1..] == m.calls[k + 1..];
      Shift(blocks, Use(m.calls[k], out, left, k), Uses(m.calls[k + 1..], out, left, k + 1));
      blocks := blocks + Use(m.calls[k], out, left, k);
    }
    if blocks == [] { blocks := [TextBlock("")]; }
  }

  // ---------------------------------------------------------------------------------------
  // Google
  // ---------------------------------------------------------------------------------------

  datatype Part<I> = TextPart(text: string) | FunctionCall(name: string, args: I)

  datatype Content<I> = GUser(text: string) | GModel(parts: seq<Part<I>>) | GResponse(name: string, text: string)

  /** The tool name last seen with an id. */
  type Names = map<string, string>

  function NameFor(names: Names, id: string): string {
    if id in names then names[id] else "tool_result"
  }

  function NamesAfterCall<I>(names: Names, call: Call, out: Outside<I>, left: nat, k: nat): Names {
    if Named(out, call) then names[IdOf(out, left, k, call) := out.strip(call.name)] else names
  }

  function NamesAfterCalls<I>(names: Names, calls: seq<Call>, out: Outside<I>, left: nat, k: nat): Names
    decreases |calls|
  {
    if calls == [] then names
    else NamesAfterCalls(NamesAfterCall(names, calls[0], out, left, k), calls[1..], out, left, k + 1)
  }

  function NamesAfter<I>(names: Names, m: Message, out: Outside<I>, left: nat): Names {
    if m.Assistant? then NamesAfterCalls(names, m.calls, out, left, 0) else names
  }

  function Function<I>(call: Call, out: Outside<I>): seq<Part<I>> {
    if Named(out, call) then [FunctionCall(out.strip(call.name), out.parse(call.arguments))] else []
  }

  function Functions<I>(calls: seq<Call>, out: Outside<I>): seq<Part<I>> {
    if calls == [] then [] else Function(calls[0], out) + Functions(calls[1..], out)
  }

  function TextParts<I>(text: string): seq<Part<I>> {
    if text == "" then [] else [TextPart(text)]
  }

  function GParts<I>(m: Message, out: Outside<I>): seq<Part<I>>
    requires m.Assistant?
  {
    var parts := TextParts(m.text) + Functions(m.calls, out);
    if parts == [] then [TextPart("")] else parts
  }

  function GOne<I>(names: Names, m: Message, out: Outside<I>): seq<Content<I>> {
    match m
    case System(_) => []
    case Assistant(_, _) => [GModel(GParts(m, out))]
    case Tool(id, text) => if id == "" then [] else [GResponse(NameFor(names, id), text)]
    case User(text) => [GUser(text)]
  }

  function GAll<I>(names: Names, ms: seq<Message>, out: Outside<I>): seq<Content<I>>
    decreases |ms|
  {
    if ms == [] then [] else GOne(names, ms[0], out) + GAll(NamesAfter(names, ms[0], out, |ms|), ms[1..], out)
  }

  method ToGoogle<I>(ms: seq<Message>, out: Outside<I>) returns (system: string, contents: seq<Content<I>>)
    ensures system == Join(SystemTexts(ms), "\n\n")
    ensures contents == if GAll(map[], ms, out) == [] then [GUser("")] else GAll(map[], ms, out)
  {
    var parts: seq<string> := [];
    var names: Names := map[];
    contents := [];
    for i := 0 to |ms|
      invariant parts + SystemTexts(ms[i..]) == SystemTexts(ms)
      invariant contents + GAll(names, ms[i..], out) == GAll(map[], ms, out)
    {
      assert ms[i..][1..] == ms[i + 1..];
      Shift(parts, SystemText(ms[i]), SystemTexts(ms[i + 1..]));
      Shift(contents, GOne(names, ms[i], out), GAll(NamesAfter(names, ms[i], out, |ms| - i), ms[i + 1..], out));
      parts := parts + SystemText(ms[i]);
      var one;
      one, names := GoogleMessage(names, ms[i], out, |ms| - i);
      contents := contents + one;
    }
    assert ms[|ms|..] == [] && parts == SystemTexts(ms);
    if contents == [] { contents := [GUser("")]; }
    system := Join(parts, "\n\n");
  }

  method GoogleMessage<I>(given: Names, m: Message, out: Outside<I>, left: nat)
    returns (one: seq<Content<I>>, names: Names)
    ensures one == GOne(given, m, out)
    ensures names == NamesAfter(given, m, out, left)
  {
    names := given;
    match m {
      case System(_) => one := [];
      case Assistant(_, _) =>
        var parts;
        parts, names := ModelParts(given, m, out, left);
        one := [GModel(parts)];
      case Tool(id, text) => one := if id == "" then [] else [GResponse(NameFor(names, id), text)];
      case User(text) => one := [GUser(text)];
    }
  }

  method ModelParts<I>(given: Names, m: Message, out: Outside<I>, left: nat) returns (parts: seq<Part<I>>, names: Names)
    requires m.Assistant?
    ensures parts == GParts(m, out)
    ensures names == NamesAfter(given, m, out, left)
  {
    names, parts := given, TextParts(m.text);
    for k := 0 to |m.calls|
      invariant parts + Functions(m.calls[k..], out) == TextParts(m.text) + Functions(m.calls, out)
      invariant NamesAfterCalls(names, m.calls[k..], out, left, k) == NamesAfterCalls(given, m.calls, out, left, 0)
    {
      assert m.calls[k..][1..] == m.calls[k + 1..];
      Shift(parts, Function(m.calls[k], out), Functions(m.calls[k + 1..], out));
      names := NamesAfterCall(names, m.calls[k], out, left, k);
      parts := parts + Function(m.calls[k], out);
    }
    if parts == [] { parts := [TextPart("")]; }
  }
}
