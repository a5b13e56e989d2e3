/** The conversation history handed to the workflow: the window cut in
    `create_chat_engine` (chat_engine.py:534-559) and the prompt rendering in
    `classify_and_respond` (chat_engine.py:62-66). */
module History {

  /** An entry of the session's message list: `{"role": ..., "content": ...}`. */
  datatype Message = Message(role: string, content: string)

  datatype Role = User | Assistant

  /** A llama_index `ChatMessage` as the workflow keeps it. */
  datatype ChatMessage = ChatMessage(role: Role, content: string)

  /** How many of the most recent messages the workflow sees. */
  const WindowSize: nat := 20

  const NoHistory: string := "No conversation history yet."

  /** `"user"` becomes USER, every other role ASSISTANT. */
  function ToChatMessage(m: Message): (c: ChatMessage)
    ensures c.content == m.content
    ensures c.role == User <==> m.role == "user"
  {
    ChatMessage(if m.role == "user" then User else Assistant, m.content)
  }

  /** The workflow's history: the last `min(20, n)` messages, in their
      original order, each converted by `ToChatMessage`. */
  function RecentHistory(h: seq<Message>): (r: seq<ChatMessage>)
    ensures |r| == if |h| < WindowSize then |h| else WindowSize
    ensures forall i :: 0 <= i < |r| ==> r[i] == ToChatMessage(h[|h| - |r| + i])
  {
    var recent := if |h| <= WindowSize then h else h[|h| - WindowSize..];
    seq(|recent|, i requires 0 <= i < |recent| => ToChatMessage(recent[i]))
  }

  /** One rendered line: `USER: …` or `ASSISTANT: …`. */
  function Line(m: ChatMessage): string {
    (if m.role == User then "USER" else "ASSISTANT") + ": " + m.content
  }

  /** `"\n".join` of the rendered lines of a non-empty history. */
  function JoinLines(h: seq<ChatMessage>): string
    requires |h| > 0
    decreases |h|
  {
    if |h| == 1 then Line(h[0]) else Line(h[0]) + "\n" + JoinLines(h[1..])
  }

  /** The history as it appears in the classification prompt. */
  function FormatHistory(h: seq<ChatMessage>): (r: string)
    ensures h == [] ==> r == NoHistory
    ensures h != [] ==> Line(h[0]) <= r
    ensures |h| == 1 ==> r == Line(h[0])
  {
    if h == [] then NoHistory else JoinLines(h)
  }

  /** `str.split("\n")`. */
  function SplitLines(s: string): (r: seq<string>)
    ensures |r| > 0
    decreases |s|
  {
    if s == [] then [[]]
    else if s[0] == '\n' then [[]] + SplitLines(s[1..])
    else
      var rest := SplitLines(s[1..]);
      [[s[0]] + rest[0]] + rest[1..]
  }

  predicate NoNewline(s: string) {
    forall k :: 0 <= k < |s| ==> s[k] != '\n'
  }

  /** Appending a message to a non-empty history appends one line. */
  lemma {:induction false} FormatAppend(h: seq<ChatMessage>, m: ChatMessage)
    requires h != []
    ensures FormatHistory(h + [m]) == FormatHistory(h) + "\n" + Line(m)
    decreases |h|
  {
    if |h| == 1 {
      assert (h + [m])[1..] == [m];
      assert JoinLines(h + [m]) == Line(h[0]) + "\n" + JoinLines([m]);
    } else {
      assert (h + [m])[1..] == h[1..] + [m];
      FormatAppend(h[1..], m);
      assert JoinLines(h + [m]) == Line(h[0]) + "\n" + JoinLines(h[1..] + [m]);
    }
  }

  /** When no message content holds a line break, splitting the rendered
      history at line breaks gives back exactly one line per message, in
      order. */
  lemma {:induction false} FormatSplitsBack(h: seq<ChatMessage>)
    requires h != []
    requires forall i :: 0 <= i < |h| ==> NoNewline(h[i].content)
    ensures SplitLines(FormatHistory(h)) == seq(|h|, i requires 0 <= i < |h| => Line(h[i]))
    decreases |h|
  {
    var lines := seq(|h|, i requires 0 <= i < |h| => Line(h[i]));
    LineHasNoNewline(h[0]);
    if |h| == 1 {
      SplitNoNewline(Line(h[0]));
    } else {
      FormatSplitsBack(h[1..]);
      SplitAfterLine(Line(h[0]), JoinLines(h[1..]));
      assert lines == [Line(h[0])] + seq(|h| - 1, i requires 0 <= i < |h| - 1 => Line(h[1..][i]));
    }
  }

  lemma LineHasNoNewline(m: ChatMessage)
    requires NoNewline(m.content)
    ensures NoNewline(Line(m))
  {
    var prefix := (if m.role == User then "USER" else "ASSISTANT") + ": ";
    assert NoNewline(prefix);
    assert Line(m) == prefix + m.content;
  }

  /** A string without line breaks splits into itself. */
  lemma {:induction false} SplitNoNewline(s: string)
    requires NoNewline(s)
    ensures SplitLines(s) == [s]
    decreases |s|
  {
    if s != [] {
      SplitNoNewline(s[1..]);
      assert s == [s[0]] + s[1..];
    }
  }

  /** Splitting `a + "\n" + b` with `a` free of line breaks yields `a` and
      then the lines of `b`. */
  lemma {:induction false} SplitAfterLine(a: string, b: string)
    requires NoNewline(a)
    ensures SplitLines(a + "\n" + b) == [a] + SplitLines(b)
    decreases |a|
  {
    if a == [] {
      assert a + "\n" + b == ['\n'] + b;
      assert (['\n'] + b)[1..] == b;
    } else {
      assert (a + "\n" + b)[1..] == a[1..] + "\n" + b;
      SplitAfterLine(a[1..], b);
      assert a == [a[0]] + a[1..];
    }
  }
}
