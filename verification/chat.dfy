/** The chat bot of src/chat.py: the message history kept in SQLite becomes
    an append-only sequence, a completion request is assembled from its most
    recent entries, the streamed reply is accumulated from its deltas, and the
    offline `MockOpenAI` client picks a canned reply and streams it word by
    word. The clock, the console and the real client are parameters. */
module Chat {
  import opened Wrappers
  import opened Text

  datatype Message = Message(role: string, content: string)

  /** How many messages `chat_stream` reads back (`get_recent_messages`'s default). */
  const HistoryWindow: int := 10

  /** `save_message`: one row more, at the end (timestamps are taken to be
      strictly increasing, so insertion order is timestamp order). */
  function Save(log: seq<Message>, role: string, content: string): (r: seq<Message>)
    ensures |r| == |log| + 1 && r[..|log|] == log && r[|log|] == Message(role, content)
  {
    log + [Message(role, content)]
  }

  /** `get_recent_messages(n)`: the newest `n` rows, oldest first. SQLite reads a
      negative LIMIT as no limit. */
  function Recent(log: seq<Message>, n: int): (r: seq<Message>)
    ensures n >= 0 ==> |r| == if n < |log| then n else |log|
    ensures n < 0 ==> r == log
    ensures |r| <= |log| && r == log[|log| - |r|..]
  {
    if n < 0 || n >= |log| then log else log[|log| - n..]
  }

  /** Reading back a window of a window reads the smaller window. */
  lemma RecentOfRecent(log: seq<Message>, n: int, m: int)
    requires n >= 0 && m >= 0
    ensures Recent(Recent(log, n), m) == Recent(log, if n < m then n else m)
  {
  }

  /** The last message saved is the newest one read back. */
  lemma RecentAfterSave(log: seq<Message>, role: string, content: string, n: int)
    requires n != 0
    ensures var r := Recent(Save(log, role, content), n);
            |r| >= 1 && r[|r| - 1] == Message(role, content)
  {
  }

  /** The request `chat_stream` sends: the recent history, which already ends
      with the user's message, followed by that message once more. */
  function Request(log: seq<Message>, input: string): (r: seq<Message>)
    ensures |r| == (if HistoryWindow < |log| + 1 then HistoryWindow else |log| + 1) + 1
    ensures r[|r| - 1] == Message("user", input) && r[|r| - 2] == Message("user", input)
    ensures r[..|r| - 1] == Recent(Save(log, "user", input), HistoryWindow)
  {
    var saved := Save(log, "user", input);
    RecentAfterSave(log, "user", input, HistoryWindow);
    var r := Recent(saved, HistoryWindow) + [Message("user", input)];
    assert r[..|r| - 1] == Recent(saved, HistoryWindow);
    r
  }

  /** A streamed chunk: its first choice has a delta with optional content, or
      has no delta at all. */
  datatype Chunk = Delta(content: Option<string>) | NoDelta

  /** The text a chunk adds: Python skips a missing, `None` or empty content. */
  function Piece(c: Chunk): string {
    if c.Delta? && c.content.Some? then c.content.value else ""
  }

  /** `assistant_response`: the contents of the chunks, in order. */
  function Accumulate(chunks: seq<Chunk>): string {
    if chunks == [] then ""
    else
      var c := chunks[0];
      if c.Delta? && c.content.Some? && c.content.value != "" then c.content.value + Accumulate(chunks[1..])
      else Accumulate(chunks[1..])
  }

  /** Accumulation is concatenation of the pieces: splitting a stream anywhere
      splits the reply at the same place. */
  lemma {:induction false} AccumulateAppend(a: seq<Chunk>, b: seq<Chunk>)
    ensures Accumulate(a + b) == Accumulate(a) + Accumulate(b)
  {
    if a == [] {
      assert a + b == b;
    } else {
      assert (a + b)[0] == a[0] && (a + b)[1..] == a[1..] + b;
      AccumulateAppend(a[1..], b);
    }
  }

  /** Every chunk counts with its whole content: accumulation is the
      concatenation of the pieces. */
  lemma {:induction false} AccumulateIsPieces(chunks: seq<Chunk>)
    ensures Accumulate(chunks) == Concat(chunks)
  {
    if chunks != [] {
      AccumulateIsPieces(chunks[1..]);
    }
  }

  function Concat(chunks: seq<Chunk>): string {
    if chunks == [] then "" else Piece(chunks[0]) + Concat(chunks[1..])
  }

  /** What the client returns for a request: the chunks it delivers and, when
      the request or the stream raises, the error it raises after them. */
  datatype Response = Response(chunks: seq<Chunk>, error: Option<string>)

  /** The log after one turn and the error line printed, if any. */
  datatype Turn = Turn(log: seq<Message>, printed: Option<string>)

  /** `chat_stream`: the user's message is saved before the request; the
      assistant's reply is saved only when the stream completes. */
  function ChatStream(log: seq<Message>, input: string, client: seq<Message> -> Response): (t: Turn)
    ensures |t.log| >= |log| + 1 && t.log[..|log| + 1] == Save(log, "user", input)
    ensures client(Request(log, input)).error.None? ==>
              t == Turn(Save(Save(log, "user", input), "assistant", Accumulate(client(Request(log, input)).chunks)), None)
    ensures client(Request(log, input)).error.Some? ==>
              t == Turn(Save(log, "user", input), Some("Error: " + client(Request(log, input)).error.value))
  {
    var saved := Save(log, "user", input);
    var response := client(Request(log, input));
    match response.error
    case None =>
      var r := Save(saved, "assistant", Accumulate(response.chunks));
      assert r[..|log| + 1] == saved;
      Turn(r, None)
    case Some(e) => Turn(saved, Some("Error: " + e))
  }

  const HelloReply: string := "Hello! I'm a demo AI assistant. How can I help you today?"
  const WeatherReply: string := "I'm a demo version and can't check real weather, but it's probably nice somewhere!"
  const TimePrefix: string := "The current time is "
  const EchoPrefix: string := "I'm a demo AI assistant. You said: '"
  const EchoSuffix: string := "'. This is a mock response for Python 3.14 compatibility."
  /** Python's message for indexing an empty list. */
  const EmptyListError: string := "list index out of range"

  /** The mock's reply text for the last message, by keyword priority; `clock`
      is what `time.strftime('%H:%M:%S')` gives. With no messages the keyword
      tests see an empty text and the echo branch indexes the empty list. */
  function MockReply(messages: seq<Message>, clock: string): (r: Result<string, string>)
    ensures r.Err? <==> messages == []
    ensures messages != [] ==>
              var low := Lower(messages[|messages| - 1].content);
              && (Contains(low, "hello") ==> r == Ok(HelloReply))
              && (!Contains(low, "hello") && Contains(low, "weather") ==> r == Ok(WeatherReply))
              && (!Contains(low, "hello") && !Contains(low, "weather") && Contains(low, "time") ==>
                    r == Ok(TimePrefix + clock))
              && (!Contains(low, "hello") && !Contains(low, "weather") && !Contains(low, "time") ==>
                    r == Ok(EchoPrefix + messages[|messages| - 1].content + EchoSuffix))
  {
    if messages == [] then Err(EmptyListError)
    else
      var content := messages[|messages| - 1].content;
      var low := Lower(content);
      if Contains(low, "hello") then Ok(HelloReply)
      else if Contains(low, "weather") then Ok(WeatherReply)
      else if Contains(low, "time") then Ok(TimePrefix + clock)
      else Ok(EchoPrefix + content + EchoSuffix)
  }

  /** The chunks after the first word: each later word behind one blank. */
  function SpacedChunks(ws: seq<string>): (cs: seq<Chunk>)
    ensures |cs| == |ws|
  {
    if ws == [] then [] else [Delta(Some(" " + ws[0]))] + SpacedChunks(ws[1..])
  }

  /** The mock stream: the first word, then `" " + word` for each later one,
      then a chunk without content. */
  function MockStream(text: string): (cs: seq<Chunk>)
    ensures |cs| == |SplitWords(text)| + 1
    ensures cs[|cs| - 1] == Delta(None)
  {
    WordChunks(SplitWords(text)) + [Delta(None)]
  }

  lemma {:induction false} JoinAsSpaced(ws: seq<string>)
    requires |ws| >= 1
    ensures Join(ws, " ") == ws[0] + Accumulate(SpacedChunks(ws[1..]))
  {
    if |ws| >= 2 {
      var rest := ws[1..];
      JoinAsSpaced(rest);
      assert rest[1..] == ws[2..];
      assert SpacedChunks(rest) == [Delta(Some(" " + rest[0]))] + SpacedChunks(rest[1..]);
      assert Accumulate(SpacedChunks(rest)) == " " + rest[0] + Accumulate(SpacedChunks(rest[1..]));
      assert Join(ws, " ") == ws[0] + " " + Join(rest, " ");
    }
  }

  /** The chunks of a list of words, before the closing one. */
  function WordChunks(ws: seq<string>): (cs: seq<Chunk>)
    ensures |cs| == |ws|
  {
    if ws == [] then [] else [Delta(Some(ws[0]))] + SpacedChunks(ws[1..])
  }

  lemma WordChunksJoin(ws: seq<string>)
    ensures Accumulate(WordChunks(ws) + [Delta(None)]) == Join(ws, " ")
  {
    AccumulateAppend(WordChunks(ws), [Delta(None)]);
    if ws != [] {
      AccumulateAppend([Delta(Some(ws[0]))], SpacedChunks(ws[1..]));
      JoinAsSpaced(ws);
    }
  }

  /** The streamed reply is the reply's words joined by single blanks, so it
      splits back into exactly the reply's words. */
  lemma MockStreamAccumulates(text: string)
    ensures Accumulate(MockStream(text)) == Join(SplitWords(text), " ")
    ensures SplitWords(Accumulate(MockStream(text))) == SplitWords(text)
  {
    var ws := SplitWords(text);
    assert MockStream(text) == WordChunks(ws) + [Delta(None)];
    WordChunksJoin(ws);
    SplitJoinWords(ws);
  }

  /** A text already made of words and single blanks streams back unchanged. */
  lemma MockStreamKeepsSingleSpaced(ws: seq<string>)
    requires forall i :: 0 <= i < |ws| ==> IsWord(ws[i])
    ensures Accumulate(MockStream(Join(ws, " "))) == Join(ws, " ")
  {
    SplitJoinWords(ws);
    MockStreamAccumulates(Join(ws, " "));
  }

  /** The offline client: the reply streamed, or the indexing error. */
  function MockClient(clock: string, messages: seq<Message>): (r: Response)
    ensures r.error.None? <==> messages != []
  {
    match MockReply(messages, clock)
    case Ok(text) => Response(MockStream(text), None)
    case Err(e) => Response([], Some(e))
  }

  /** The mock reads only the last message. */
  lemma MockReplyOnLast(a: seq<Message>, b: seq<Message>, clock: string)
    requires a != [] && b != [] && a[|a| - 1] == b[|b| - 1]
    ensures MockReply(a, clock) == MockReply(b, clock)
  {
  }

  /** A turn with the offline client: the reply is chosen on the user's own
      message and saved with its words joined by single blanks. */
  lemma MockTurn(log: seq<Message>, input: string, clock: string)
    ensures var reply := MockReply([Message("user", input)], clock).value;
            ChatStream(log, input, m => MockClient(clock, m)).log ==
              log + [Message("user", input), Message("assistant", Join(SplitWords(reply), " "))]
  {
    var req := Request(log, input);
    MockReplyOnLast(req, [Message("user", input)], clock);
    var reply := MockReply(req, clock).value;
    var client := m => MockClient(clock, m);
    assert client(req) == Response(MockStream(reply), None);
    MockStreamAccumulates(reply);
    var saved := Save(log, "user", input);
    assert Save(saved, "assistant", Join(SplitWords(reply), " ")) ==
           log + [Message("user", input), Message("assistant", Join(SplitWords(reply), " "))];
  }

  /** The greeting is recognised in any ASCII casing. */
  lemma HelloInAnyCase(messages: seq<Message>, clock: string, w: string)
    requires messages != [] && Lower(w) == "hello" && Contains(messages[|messages| - 1].content, w)
    ensures MockReply(messages, clock) == Ok(HelloReply)
  {
    ContainsLower(messages[|messages| - 1].content, w);
  }

  /** A message with no keyword is quoted verbatim in the reply. */
  lemma EchoQuotesMessage(messages: seq<Message>, clock: string)
    requires messages != []
    requires var low := Lower(messages[|messages| - 1].content);
             !Contains(low, "hello") && !Contains(low, "weather") && !Contains(low, "time")
    ensures Contains(MockReply(messages, clock).value, messages[|messages| - 1].content)
  {
    ContainsInfix(EchoPrefix, messages[|messages| - 1].content, EchoSuffix);
  }
}
