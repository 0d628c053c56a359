/** The chat template: a conversation as one prompt, and how the tokenizer cuts it. */
module ChatTemplate {
  import opened Words
  import opened ByteTable
  import opened Bpe
  import opened Tokenizer
  import opened TextCutting

  datatype Turn = Turn(role: Bytes, text: Bytes)

  /** The messages of a conversation, each between its markers. */
  function Messages(turns: seq<Turn>): Bytes {
    if turns == [] then []
    else
      var last := turns[|turns| - 1];
      Messages(turns[..|turns| - 1])
      + Ascii("<|im_start|>") + last.role + [NEWLINE] + last.text + Ascii("<|im_end|>\n")
  }

  /** The messages, and the start of the answer. */
  function ChatPrompt(turns: seq<Turn>): Bytes {
    Messages(turns) + Ascii("<|im_start|>assistant\n")
  }

  /** `apply_chat_template`. */
  method ApplyChatTemplate(turns: seq<Turn>, generationPrompt: bool) returns (text: Bytes)
    ensures text == if generationPrompt then ChatPrompt(turns) else Messages(turns)
  {
    hide Ascii;
    text := [];
    for k := 0 to |turns|
      invariant text == Messages(turns[..k])
    {
      assert turns[..k + 1][..k] == turns[..k];
      text := text + Ascii("<|im_start|>") + turns[k].role + [NEWLINE] + turns[k].text + Ascii("<|im_end|>\n");
    }
    assert turns[..|turns|] == turns;
    if generationPrompt {
      text := text + Ascii("<|im_start|>assistant\n");
    }
  }

  // ---- The text, written out ----

  lemma AsciiConcat(a: string, b: string)
    ensures Ascii(a + b) == Ascii(a) + Ascii(b)
  {}

  /** The prompt of a first message. */
  lemma FirstMessage(text: Bytes)
    ensures ChatPrompt([Turn(Ascii("user"), text)])
            == Ascii("<|im_start|>user\n") + text + Ascii("<|im_end|>\n<|im_start|>assistant\n")
  {
    hide Ascii;
    var turn := Turn(Ascii("user"), text);
    UserHeader();
    FirstTail();
    assert [turn][..0] == [];
    assert Messages([turn]) == Ascii("<|im_start|>") + turn.role + [NEWLINE] + text + Ascii("<|im_end|>\n");
  }

  lemma UserHeader()
    ensures Ascii("<|im_start|>") + Ascii("user") + [NEWLINE] == Ascii("<|im_start|>user\n")
  {
    assert Ascii("\n") == [NEWLINE];
    AsciiConcat("<|im_start|>", "user");
    AsciiConcat("<|im_start|>" + "user", "\n");
    hide Ascii;
    assert "<|im_start|>" + "user" + "\n" == "<|im_start|>user\n";
  }

  lemma FirstTail()
    ensures Ascii("<|im_end|>\n") + Ascii("<|im_start|>assistant\n") == Ascii("<|im_end|>\n<|im_start|>assistant\n")
  {
    AsciiConcat("<|im_end|>\n", "<|im_start|>assistant\n");
    hide Ascii;
    assert "<|im_end|>\n" + "<|im_start|>assistant\n" == "<|im_end|>\n<|im_start|>assistant\n";
  }

  /** One more message stands in front of the start of the answer, behind all earlier ones. */
  lemma NextMessage(turns: seq<Turn>, turn: Turn) returns (body: Bytes)
    ensures ChatPrompt(turns) == body + Ascii("<|im_start|>assistant\n")
    ensures ChatPrompt(turns + [turn])
            == body + (Ascii("<|im_start|>") + turn.role + Ascii("\n") + turn.text + Ascii("<|im_end|>\n"))
               + Ascii("<|im_start|>assistant\n")
  {
    body := Messages(turns);
    assert (turns + [turn])[..|turns|] == turns && Ascii("\n") == [NEWLINE];
    hide Ascii;
    assert Messages(turns + [turn])
        == body + (Ascii("<|im_start|>") + turn.role + [NEWLINE] + turn.text + Ascii("<|im_end|>\n"));
  }

  // ---- How it is cut ----

  /** A message as the tokenizer cuts it: both markers whole, all else byte by byte. */
  function MessagePieces(ids: map<Bytes, nat>, turn: Turn): seq<Bytes> {
    [Ascii("<|im_start|>")] + BytePieces(ids, turn.role + Ascii("\n") + turn.text)
    + [Ascii("<|im_end|>")] + BytePieces(ids, Ascii("\n"))
  }

  function PromptPieces(ids: map<Bytes, nat>, turns: seq<Turn>): seq<Bytes> {
    if turns == [] then [Ascii("<|im_start|>")] + BytePieces(ids, Ascii("assistant\n"))
    else MessagePieces(ids, turns[0]) + PromptPieces(ids, turns[1..])
  }

  lemma BodyUnmarked(ids: map<Bytes, nat>, role: Bytes, text: Bytes)
    requires Unmarked(ids, role) && Unmarked(ids, text)
    ensures Unmarked(ids, role + [NEWLINE] + text)
  {
    hide Unmarked, TheSpecialAt;
    var body := role + [NEWLINE] + text;
    forall pos: nat | pos < |body| ensures TheSpecialAt(ids, body, pos) == None {
      if pos < |role| {
        assert body == [] + role + ([NEWLINE] + text);
        NothingCrosses(ids, [], role, [NEWLINE] + text, pos);
      } else if pos == |role| {
        NothingSpecial(ids, body, pos);
      } else {
        NothingAtEnd(ids, role + [NEWLINE], text, pos - |role| - 1);
      }
    }
    UnmarkedIs(ids, body);
  }

  // ---- From the front ----

  function Message(turn: Turn): Bytes {
    Ascii("<|im_start|>") + (turn.role + [NEWLINE] + turn.text) + (Ascii("<|im_end|>") + [NEWLINE])
  }

  function Forward(turns: seq<Turn>): Bytes {
    if turns == [] then Ascii("<|im_start|>") + Ascii("assistant\n") else Message(turns[0]) + Forward(turns[1..])
  }

  lemma MessageIs(turn: Turn)
    ensures Message(turn) == Ascii("<|im_start|>") + turn.role + [NEWLINE] + turn.text + Ascii("<|im_end|>\n")
    ensures Ascii("<|im_start|>assistant\n") == Ascii("<|im_start|>") + Ascii("assistant\n")
  {
    AsciiConcat("<|im_end|>", "\n");
    AsciiConcat("<|im_start|>", "assistant\n");
    assert "<|im_end|>" + "\n" == "<|im_end|>\n" && "<|im_start|>" + "assistant\n" == "<|im_start|>assistant\n";
    assert Ascii("\n") == [NEWLINE];
    hide Ascii;
  }

  lemma MessagesMore(turns: seq<Turn>, turn: Turn)
    ensures Messages([]) == [] && Messages(turns + [turn]) == Messages(turns) + Message(turn)
  {
    assert (turns + [turn])[..|turns|] == turns;
    MessageIs(turn);
    hide Ascii, Message;
  }

  lemma {:induction false} MessagesFromFront(turn: Turn, rest: seq<Turn>)
    ensures Messages([turn] + rest) == Message(turn) + Messages(rest)
  {
    hide Messages, Message;
    if rest == [] {
      assert [turn] + rest == [] + [turn];
      MessagesMore([], turn);
      assert [] + Message(turn) == Message(turn) + [];
    } else {
      var init, last := rest[..|rest| - 1], rest[|rest| - 1];
      assert rest == init + [last] && [turn] + rest == ([turn] + init) + [last];
      MessagesFromFront(turn, init);
      MessagesMore([turn] + init, last);
      MessagesMore(init, last);
    }
  }

  lemma {:induction false} PromptFromFront(turns: seq<Turn>)
    ensures ChatPrompt(turns) == Forward(turns)
  {
    hide Ascii, Messages, Message;
    if turns == [] {
      MessagesMore([], Turn([], []));
      MessageIs(Turn([], []));
    } else {
      assert turns == [turns[0]] + turns[1..];
      MessagesFromFront(turns[0], turns[1..]);
      PromptFromFront(turns[1..]);
    }
  }

  ghost predicate AllUnmarked(ids: map<Bytes, nat>, turns: seq<Turn>) {
    forall k | 0 <= k < |turns| :: Unmarked(ids, turns[k].role) && Unmarked(ids, turns[k].text)
  }

  lemma MessageParts(text: Bytes, at: nat, turn: Turn)
    requires Stands(text, at, Message(turn))
    ensures var s, body, e := Ascii("<|im_start|>"), turn.role + [NEWLINE] + turn.text, Ascii("<|im_end|>");
            && |Message(turn)| == |s| + |body| + |e| + 1
            && Stands(text, at, s) && Stands(text, at + |s|, body) && Stands(text, at + |s| + |body|, e)
            && Stands(text, at + |s| + |body| + |e|, [NEWLINE])
            && text[at + |s| + |body|] == LESS
  {
    var s, body, e := Ascii("<|im_start|>"), turn.role + [NEWLINE] + turn.text, Ascii("<|im_end|>");
    assert e[0] == LESS;
    hide Ascii;
    PartStands(text, at, s + body, e + [NEWLINE]);
    PartStands(text, at, s, body);
    PartStands(text, at + |s + body|, e, [NEWLINE]);
    assert text[at + |s + body|] == text[at + |s + body|..at + |s + body| + |e|][0];
  }

  lemma MessageIsCut(ids: map<Bytes, nat>, text: Bytes, at: nat, turn: Turn)
    requires Ascii("<|im_start|>") in ids && Ascii("<|im_end|>") in ids && Stands(text, at, Message(turn))
    requires Unmarked(ids, turn.role) && Unmarked(ids, turn.text)
    ensures InitialPieces(ids, text, at)
            == MessagePieces(ids, turn) + InitialPieces(ids, text, at + |Message(turn)|)
  {
    var s, body, e := Ascii("<|im_start|>"), turn.role + [NEWLINE] + turn.text, Ascii("<|im_end|>");
    assert Ascii("\n") == [NEWLINE] && LESS !in [NEWLINE];
    hide Ascii, InitialPieces, Unmarked, IsSpecial, BytePieces, Stands, Message;
    Markers();
    MessageParts(text, at, turn);
    BodyUnmarked(ids, turn.role, turn.text);
    MarkerAt(ids, text, at, s);
    StretchInside(text, at + |s| + |body|, e);
    StretchAt(ids, text, at + |s|, body);
    MarkerAt(ids, text, at + |s| + |body|, e);
    PlainAt(ids, text, at + |s| + |body| + |e|, [NEWLINE]);
    Pieces4([s], BytePieces(ids, body), [e], BytePieces(ids, [NEWLINE]),
            InitialPieces(ids, text, at + |Message(turn)|));
  }

  lemma StretchInside(text: Bytes, at: nat, t: Bytes)
    requires Stands(text, at, t) && t != []
    ensures at < |text|
  {}

  lemma Pieces4(a: seq<Bytes>, b: seq<Bytes>, c: seq<Bytes>, d: seq<Bytes>, rest: seq<Bytes>)
    ensures a + (b + (c + (d + rest))) == (a + b + c + d) + rest
  {}

  lemma {:induction false} ForwardIsCut(ids: map<Bytes, nat>, text: Bytes, at: nat, turns: seq<Turn>)
    requires Ascii("<|im_start|>") in ids && Ascii("<|im_end|>") in ids && AllUnmarked(ids, turns)
    requires Stands(text, at, Forward(turns)) && at + |Forward(turns)| == |text|
    ensures InitialPieces(ids, text, at) == PromptPieces(ids, turns)
    decreases |turns|
  {
    hide Ascii, InitialPieces, Unmarked, MessagePieces, Message, Stands, IsSpecial, BytePieces;
    if turns == [] {
      var s, rest := Ascii("<|im_start|>"), Ascii("assistant\n");
      Markers();
      AnswerIsPlain();
      PartStands(text, at, s, rest);
      MarkerAt(ids, text, at, s);
      PlainAt(ids, text, at + |s|, rest);
      EndOfText(ids, text);
    } else {
      PartStands(text, at, Message(turns[0]), Forward(turns[1..]));
      MessageIsCut(ids, text, at, turns[0]);
      ForwardIsCut(ids, text, at + |Message(turns[0])|, turns[1..]);
    }
  }

  lemma AnswerIsPlain()
    ensures LESS !in Ascii("assistant\n")
  {}

  /** Main result: the tokenizer of a vocabulary with both markers cuts a chat prompt into these markers,
      each whole, and the bytes of everything else, if roles and texts hold no special token. */
  lemma PromptIsCut(ids: map<Bytes, nat>, turns: seq<Turn>)
    requires Ascii("<|im_start|>") in ids && Ascii("<|im_end|>") in ids && AllUnmarked(ids, turns)
    ensures InitialPieces(ids, ChatPrompt(turns), 0) == PromptPieces(ids, turns)
  {
    hide *;
    PromptFromFront(turns);
    Whole(Forward(turns));
    ForwardIsCut(ids, Forward(turns), 0, turns);
  }
}
