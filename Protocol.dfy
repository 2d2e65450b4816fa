/**
  The DI-2108's ASCII command language as the driver speaks it: the
  commands, their argument tokens with the per-verb padding quirks, the
  command frame, and the parsing of the echoed replies.
*/
module Protocol {
  import opened Outcomes
  import opened Text
  import opened Transport

  /** One command of the instrument, with the integer arguments the driver formats. */
  datatype Command =
    | Info(selector: int)
    | Ps(index: int)
    | Start(mode: int)
    | Stop
    | Slist(offset: int, config: int)
    | Srate(divisor: int)
    | Filter(channel: int, mode: int)
    | Dec(count: int)
    | Ffl(factor: int)
    | Led(color: int)
    | Dout(mask: int)
    | Endo(mask: int)
    | Din
    | Reset

  /** The verbs that send one number with padding (`info` only for selector 0). */
  predicate PaddedVerb(c: Command) {
    c.Info? || c.Ps? || c.Dec?
  }

  /** The verbs that send two numbers. */
  predicate TwoNumberVerb(c: Command) {
    c.Slist? || c.Filter?
  }

  /** The verbs sent without a number. */
  predicate BareVerb(c: Command) {
    c.Stop? || c.Din? || c.Reset?
  }

  // ---------------------------------------------------------------------
  // Command frames
  // ---------------------------------------------------------------------

  /** The argument of `info`: the selector in decimal, with a space appended when that is "0". */
  function InfoArg(selector: int): (a: string)
    ensures selector == 0 ==> a == "0 "
    ensures selector != 0 ==> a == IntToString(selector)
  {
    IntToStringIsZero(selector);
    var arg := IntToString(selector);
    if arg == "0" then arg + " " else arg
  }

  /** The argument tokens each verb method hands to `_write_cmd_args`. */
  function Tokens(c: Command): (ts: seq<string>)
    ensures 1 <= |ts| <= 3
  {
    match c
    case Info(n) => ["info", InfoArg(n)]
    case Ps(a) => ["ps", IntToString(a) + " "]
    case Start(m) => ["start", IntToString(m)]
    case Stop => ["stop "]
    case Slist(offset, config) => ["slist", IntToString(offset), IntToString(config)]
    case Srate(d) => ["srate", IntToString(d)]
    case Filter(ch, m) => ["filter", IntToString(ch), IntToString(m) + " "]
    case Dec(n) => ["dec", IntToString(n) + " "]
    case Ffl(f) => ["ffl", IntToString(f)]
    case Led(color) => ["led", IntToString(color)]
    case Dout(m) => ["dout", IntToString(m)]
    case Endo(m) => ["endo", IntToString(m)]
    case Din => ["din"]
    case Reset => ["reset 1"]
  }

  /** A decimal argument, padded or not, is ASCII and has no carriage return. */
  lemma NumberToken(n: int)
    ensures IsAscii(IntToString(n)) && '\r' !in IntToString(n)
    ensures IsAscii(IntToString(n) + " ") && '\r' !in IntToString(n) + " "
  {
    IsAsciiConcat(IntToString(n), " ");
  }

  /** Tokens `encode('ascii')` accepts and that cannot end the frame early. */
  predicate TokensOk(ts: seq<string>) {
    forall i :: 0 <= i < |ts| ==> IsAscii(ts[i]) && '\r' !in ts[i]
  }

  lemma VerbAndTokenOk(verb: string, arg: string)
    requires IsAscii(verb) && '\r' !in verb && IsAscii(arg) && '\r' !in arg
    ensures TokensOk([verb, arg])
  {
  }

  lemma VerbAndTokensOk(verb: string, arg1: string, arg2: string)
    requires IsAscii(verb) && '\r' !in verb
    requires IsAscii(arg1) && '\r' !in arg1 && IsAscii(arg2) && '\r' !in arg2
    ensures TokensOk([verb, arg1, arg2])
  {
  }

  /** Every argument token of every verb is ASCII and free of carriage returns. */
  lemma TokensAscii(c: Command)
    ensures TokensOk(Tokens(c))
  {
    if PaddedVerb(c) {
      TokensAsciiPadded(c);
    } else if c.Start? || c.Srate? || c.Ffl? {
      TokensAsciiAcquisition(c);
    } else if c.Led? || c.Dout? || c.Endo? {
      TokensAsciiOutputs(c);
    } else if TwoNumberVerb(c) {
      TokensAsciiTwoNumbers(c);
    } else {
      TokensAsciiBare(c);
    }
  }

  lemma TokensAsciiPadded(c: Command)
    requires PaddedVerb(c)
    ensures TokensOk(Tokens(c))
  {
    match c
    case Info(n) => NumberToken(n); VerbAndTokenOk("info", InfoArg(n));
    case Ps(a) => NumberToken(a); VerbAndTokenOk("ps", IntToString(a) + " ");
    case Dec(n) => NumberToken(n); VerbAndTokenOk("dec", IntToString(n) + " ");
  }

  lemma TokensAsciiAcquisition(c: Command)
    requires c.Start? || c.Srate? || c.Ffl?
    ensures TokensOk(Tokens(c))
  {
    match c
    case Start(m) => NumberToken(m); VerbAndTokenOk("start", IntToString(m));
    case Srate(d) => NumberToken(d); VerbAndTokenOk("srate", IntToString(d));
    case Ffl(f) => NumberToken(f); VerbAndTokenOk("ffl", IntToString(f));
  }

  lemma TokensAsciiOutputs(c: Command)
    requires c.Led? || c.Dout? || c.Endo?
    ensures TokensOk(Tokens(c))
  {
    match c
    case Led(color) => NumberToken(color); VerbAndTokenOk("led", IntToString(color));
    case Dout(m) => NumberToken(m); VerbAndTokenOk("dout", IntToString(m));
    case Endo(m) => NumberToken(m); VerbAndTokenOk("endo", IntToString(m));
  }

  lemma TokensAsciiTwoNumbers(c: Command)
    requires TwoNumberVerb(c)
    ensures TokensOk(Tokens(c))
  {
    match c
    case Slist(a, b) => NumberToken(a); NumberToken(b); VerbAndTokensOk("slist", IntToString(a), IntToString(b));
    case Filter(a, b) => NumberToken(a); NumberToken(b); VerbAndTokensOk("filter", IntToString(a), IntToString(b) + " ");
  }

  lemma TokensAsciiBare(c: Command)
    requires BareVerb(c)
    ensures TokensOk(Tokens(c))
  {
    match c
    case Stop =>
    case Din =>
    case Reset =>
  }

  /** `_write_cmd_args`: the tokens joined by single spaces, then one carriage return. */
  function Frame(tokens: seq<string>): string {
    Join(tokens, " ") + "\r"
  }

  lemma {:induction false} JoinAscii(parts: seq<string>)
    requires forall i :: 0 <= i < |parts| ==> IsAscii(parts[i])
    ensures IsAscii(Join(parts, " "))
  {
    if |parts| > 1 {
      JoinAscii(parts[1..]);
      IsAsciiConcat(parts[0], " ");
      IsAsciiConcat(parts[0] + " ", Join(parts[1..], " "));
    }
  }

  lemma {:induction false} JoinAvoids(parts: seq<string>, c: char)
    requires c != ' '
    requires forall i :: 0 <= i < |parts| ==> c !in parts[i]
    ensures c !in Join(parts, " ")
  {
    if |parts| > 1 {
      JoinAvoids(parts[1..], c);
    }
  }

  /** Every frame of ASCII tokens is ASCII, so `encode('ascii')` succeeds on it. */
  lemma FrameAscii(tokens: seq<string>)
    requires forall i :: 0 <= i < |tokens| ==> IsAscii(tokens[i])
    ensures IsAscii(Frame(tokens))
  {
    JoinAscii(tokens);
    IsAsciiConcat(Join(tokens, " "), "\r");
  }

  /** The frame `_write_cmd_args` builds for `c`. */
  function CommandFrame(c: Command): string {
    Frame(Tokens(c))
  }

  /** `encode('ascii')` of the frame of ASCII tokens: the bytes `_write_cmd_args` writes. */
  function FrameBytes(tokens: seq<string>): (b: seq<byte>)
    requires forall i :: 0 <= i < |tokens| ==> IsAscii(tokens[i])
    ensures |b| == |Frame(tokens)|
    ensures Decode(b) == Some(Frame(tokens))
  {
    FrameAscii(tokens);
    DecodeEncode(Frame(tokens));
    Encode(Frame(tokens))
  }

  /** The bytes written to the OUT endpoint for `c`. */
  function CommandBytes(c: Command): (b: seq<byte>)
    ensures |b| == |CommandFrame(c)|
    ensures Decode(b) == Some(CommandFrame(c))
  {
    TokensAscii(c);
    FrameBytes(Tokens(c))
  }

  /**
    Every frame is its tokens joined by single spaces followed by exactly
    one carriage return: the last character is '\r' and no other is.
  */
  lemma FrameFormat(c: Command)
    ensures var f := CommandFrame(c);
      |f| >= 1 && f[|f| - 1] == '\r' && f[..|f| - 1] == Join(Tokens(c), " ") &&
      forall i :: 0 <= i < |f| - 1 ==> f[i] != '\r'
  {
    var f := CommandFrame(c);
    TokensAscii(c);
    JoinAvoids(Tokens(c), '\r');
    assert f[..|f| - 1] == Join(Tokens(c), " ");
    forall i | 0 <= i < |f| - 1 ensures f[i] != '\r' {
      assert f[i] == f[..|f| - 1][i];
    }
  }

  // The per-verb quirks: `info 0` and `ps`, `filter`, `dec` and `stop` carry
  // a trailing space before the carriage return; other `info` selectors do
  // not; `reset` always sends the argument 1.

  lemma InfoPadding(n: int)
    ensures CommandFrame(Info(0)) == "info 0 \r"
    ensures n != 0 ==> CommandFrame(Info(n)) == "info " + IntToString(n) + "\r"
  {
    IntToStringIsZero(0);
    IntToStringIsZero(n);
    JoinPair("info", "0 ", " ");
    JoinPair("info", IntToString(n), " ");
  }

  /** `ps` sends its index with a trailing space. */
  lemma PsPadding(n: int)
    ensures CommandFrame(Ps(n)) == "ps " + IntToString(n) + " \r"
  {
    JoinPair("ps", IntToString(n) + " ", " ");
  }

  /** `filter` sends the channel unpadded and the mode with a trailing space. */
  lemma FilterPadding(n: int, m: int)
    ensures CommandFrame(Filter(n, m)) == "filter " + IntToString(n) + " " + IntToString(m) + " \r"
  {
    JoinTriple("filter", IntToString(n), IntToString(m) + " ", " ");
  }

  /** `dec` sends its count with a trailing space. */
  lemma DecPadding(n: int)
    ensures CommandFrame(Dec(n)) == "dec " + IntToString(n) + " \r"
  {
    JoinPair("dec", IntToString(n) + " ", " ");
  }

  lemma FixedFrames()
    ensures CommandFrame(Stop) == "stop \r"
    ensures CommandFrame(Reset) == "reset 1\r"
    ensures CommandFrame(Din) == "din\r"
  {
  }

  /** The remaining one-argument verbs send their argument unpadded. */
  lemma PlainArgument(n: int)
    ensures CommandFrame(Start(n)) == "start " + IntToString(n) + "\r"
    ensures CommandFrame(Srate(n)) == "srate " + IntToString(n) + "\r"
    ensures CommandFrame(Ffl(n)) == "ffl " + IntToString(n) + "\r"
  {
    JoinPair("start", IntToString(n), " ");
    JoinPair("srate", IntToString(n), " ");
    JoinPair("ffl", IntToString(n), " ");
  }

  /** The output verbs send their argument unpadded too. */
  lemma OutputArgument(n: int)
    ensures CommandFrame(Led(n)) == "led " + IntToString(n) + "\r"
    ensures CommandFrame(Dout(n)) == "dout " + IntToString(n) + "\r"
    ensures CommandFrame(Endo(n)) == "endo " + IntToString(n) + "\r"
  {
    JoinPair("led", IntToString(n), " ");
    JoinPair("dout", IntToString(n), " ");
    JoinPair("endo", IntToString(n), " ");
  }

  /** `slist` writes its first argument (the offset) before its second (the configuration). */
  lemma SlistOrder(offset: int, config: int)
    ensures CommandFrame(Slist(offset, config)) == "slist " + IntToString(offset) + " " + IntToString(config) + "\r"
  {
    JoinTriple("slist", IntToString(offset), IntToString(config), " ");
  }

  // ---------------------------------------------------------------------
  // The instrument's reading of a frame
  // ---------------------------------------------------------------------

  /** The command a verb without arguments names. */
  function BareCommand(verb: string): Option<Command> {
    if verb == "stop" then Some(Stop)
    else if verb == "din" then Some(Din)
    else None
  }

  /** The command a verb with one number names. */
  function OneNumberCommand(verb: string, n: int): Option<Command> {
    if verb == "info" then Some(Info(n))
    else if verb == "ps" then Some(Ps(n))
    else if verb == "start" then Some(Start(n))
    else if verb == "srate" then Some(Srate(n))
    else if verb == "dec" then Some(Dec(n))
    else if verb == "ffl" then Some(Ffl(n))
    else if verb == "led" then Some(Led(n))
    else if verb == "dout" then Some(Dout(n))
    else if verb == "endo" then Some(Endo(n))
    else None
  }

  /** The command a verb with two numbers names. */
  function TwoNumberCommand(verb: string, a: int, b: int): Option<Command> {
    if verb == "slist" then Some(Slist(a, b))
    else if verb == "filter" then Some(Filter(a, b))
    else None
  }

  /** The command a list of words names, if it is one the driver sends. */
  function CommandOfWords(ws: seq<string>): Option<Command> {
    if |ws| == 1 then BareCommand(ws[0])
    else if |ws| == 2 then
      if ws[0] == "reset" then (if ws[1] == "1" then Some(Reset) else None)
      else match Decimal(ws[1])
        case None => None
        case Some(n) => OneNumberCommand(ws[0], n)
    else if |ws| == 3 then
      match (Decimal(ws[1]), Decimal(ws[2]))
      case (Some(a), Some(b)) => TwoNumberCommand(ws[0], a, b)
      case _ => None
    else None
  }

  /**
    A reading of a frame independent of how the driver built it: drop the
    terminating carriage return, split on spaces ignoring empty pieces (so
    padding spaces carry no meaning) and read the verb and its numbers.
  */
  function ParseFrame(f: string): Option<Command> {
    if f == [] || f[|f| - 1] != '\r' then None
    else CommandOfWords(Words(f[..|f| - 1]))
  }

  /** The words a command's frame is made of: its verb, then its arguments in decimal. */
  function FrameWordsOf(c: Command): seq<string> {
    match c
    case Info(n) => ["info", IntToString(n)]
    case Ps(a) => ["ps", IntToString(a)]
    case Start(m) => ["start", IntToString(m)]
    case Stop => ["stop"]
    case Slist(a, b) => ["slist", IntToString(a), IntToString(b)]
    case Srate(d) => ["srate", IntToString(d)]
    case Filter(a, b) => ["filter", IntToString(a), IntToString(b)]
    case Dec(n) => ["dec", IntToString(n)]
    case Ffl(f) => ["ffl", IntToString(f)]
    case Led(color) => ["led", IntToString(color)]
    case Dout(m) => ["dout", IntToString(m)]
    case Endo(m) => ["endo", IntToString(m)]
    case Din => ["din"]
    case Reset => ["reset", "1"]
  }

  /** A number token, with or without its padding space, is one word. */
  lemma NumberWord(arg: string, n: int)
    requires arg == IntToString(n) || arg == IntToString(n) + " "
    ensures Words(arg) == [IntToString(n)]
  {
    WordsOfWord(IntToString(n));
    WordsOfPadded(IntToString(n));
  }

  lemma VerbAndNumber(verb: string, arg: string, n: int)
    requires verb != [] && ' ' !in verb
    requires arg == IntToString(n) || arg == IntToString(n) + " "
    ensures Words(Join([verb, arg], " ")) == [verb, IntToString(n)]
  {
    JoinPair(verb, arg, " ");
    WordsAround(verb, arg);
    WordsOfWord(verb);
    NumberWord(arg, n);
  }

  lemma VerbAndNumbers(verb: string, arg1: string, n1: int, arg2: string, n2: int)
    requires verb != [] && ' ' !in verb
    requires arg1 == IntToString(n1)
    requires arg2 == IntToString(n2) || arg2 == IntToString(n2) + " "
    ensures Words(Join([verb, arg1, arg2], " ")) == [verb, IntToString(n1), IntToString(n2)]
  {
    JoinTriple(verb, arg1, arg2, " ");
    var rest := arg1 + " " + arg2;
    assert verb + " " + arg1 + " " + arg2 == verb + " " + rest;
    WordsAround(verb, rest);
    WordsOfWord(verb);
    NumbersPair(arg1, n1, arg2, n2);
  }

  /** Two number tokens joined by a space are two words. */
  lemma NumbersPair(arg1: string, n1: int, arg2: string, n2: int)
    requires arg1 == IntToString(n1)
    requires arg2 == IntToString(n2) || arg2 == IntToString(n2) + " "
    ensures Words(arg1 + " " + arg2) == [IntToString(n1), IntToString(n2)]
  {
    WordsAround(arg1, arg2);
    NumberWord(arg1, n1);
    NumberWord(arg2, n2);
  }

  lemma {:induction false} FrameWords(c: Command)
    ensures Words(Join(Tokens(c), " ")) == FrameWordsOf(c)
  {
    if PaddedVerb(c) {
      FrameWordsPadded(c);
    } else if c.Start? || c.Srate? || c.Ffl? {
      FrameWordsAcquisition(c);
    } else if c.Led? || c.Dout? || c.Endo? {
      FrameWordsOutputs(c);
    } else if TwoNumberVerb(c) {
      FrameWordsTwoNumbers(c);
    } else {
      FrameWordsBare(c);
    }
  }

  lemma {:induction false} FrameWordsPadded(c: Command)
    requires PaddedVerb(c)
    ensures Words(Join(Tokens(c), " ")) == FrameWordsOf(c)
  {
    match c
    case Info(n) => IntToStringIsZero(n); VerbAndNumber("info", InfoArg(n), n);
    case Ps(a) => VerbAndNumber("ps", IntToString(a) + " ", a);
    case Dec(n) => VerbAndNumber("dec", IntToString(n) + " ", n);
  }

  lemma {:induction false} FrameWordsAcquisition(c: Command)
    requires c.Start? || c.Srate? || c.Ffl?
    ensures Words(Join(Tokens(c), " ")) == FrameWordsOf(c)
  {
    match c
    case Start(m) => VerbAndNumber("start", IntToString(m), m);
    case Srate(d) => VerbAndNumber("srate", IntToString(d), d);
    case Ffl(f) => VerbAndNumber("ffl", IntToString(f), f);
  }

  lemma {:induction false} FrameWordsOutputs(c: Command)
    requires c.Led? || c.Dout? || c.Endo?
    ensures Words(Join(Tokens(c), " ")) == FrameWordsOf(c)
  {
    match c
    case Led(color) => VerbAndNumber("led", IntToString(color), color);
    case Dout(m) => VerbAndNumber("dout", IntToString(m), m);
    case Endo(m) => VerbAndNumber("endo", IntToString(m), m);
  }

  lemma {:induction false} FrameWordsTwoNumbers(c: Command)
    requires TwoNumberVerb(c)
    ensures Words(Join(Tokens(c), " ")) == FrameWordsOf(c)
  {
    match c
    case Slist(a, b) => VerbAndNumbers("slist", IntToString(a), a, IntToString(b), b);
    case Filter(a, b) => VerbAndNumbers("filter", IntToString(a), a, IntToString(b) + " ", b);
  }

  lemma {:induction false} FrameWordsBare(c: Command)
    requires BareVerb(c)
    ensures Words(Join(Tokens(c), " ")) == FrameWordsOf(c)
  {
    match c
    case Stop => StopWords();
    case Din => WordsOfWord("din");
    case Reset => ResetWords();
  }

  /** `stop` carries one trailing space, which adds no word. */
  lemma StopWords()
    ensures Words(Join(Tokens(Stop), " ")) == ["stop"]
  {
    assert Join(Tokens(Stop), " ") == "stop" + " ";
    WordsOfPadded("stop");
  }

  /** `reset` always sends the argument 1. */
  lemma ResetWords()
    ensures Words(Join(Tokens(Reset), " ")) == ["reset", "1"]
  {
    assert Join(Tokens(Reset), " ") == "reset" + " " + "1";
    TwoWords("reset", "1");
  }

  /** Two words joined by one space split back into those two words. */
  lemma TwoWords(a: string, b: string)
    requires a != [] && ' ' !in a
    requires b != [] && ' ' !in b
    ensures Words(a + " " + b) == [a, b]
  {
    WordsAround(a, b);
    WordsOfWord(a);
    WordsOfWord(b);
  }

  /** Reading a frame back is reading back its words. */
  lemma ParseFrameWords(c: Command)
    ensures ParseFrame(CommandFrame(c)) == CommandOfWords(FrameWordsOf(c))
  {
    var f := CommandFrame(c);
    assert f[..|f| - 1] == Join(Tokens(c), " ");
    FrameWords(c);
  }

  /** A verb and one decimal number read back as the command the verb names. */
  lemma OneNumberWords(verb: string, n: int)
    requires verb != "reset"
    ensures CommandOfWords([verb, IntToString(n)]) == OneNumberCommand(verb, n)
  {
    DecimalOfIntToString(n);
  }

  /** A verb and two decimal numbers read back as the command the verb names. */
  lemma TwoNumberWords(verb: string, a: int, b: int)
    ensures CommandOfWords([verb, IntToString(a), IntToString(b)]) == TwoNumberCommand(verb, a, b)
  {
    DecimalOfIntToString(a);
    DecimalOfIntToString(b);
  }

  lemma CommandOfWordsRoundTrip(c: Command)
    ensures CommandOfWords(FrameWordsOf(c)) == Some(c)
  {
    if PaddedVerb(c) {
      CommandOfWordsRoundTripPadded(c);
    } else if c.Start? || c.Srate? || c.Ffl? {
      CommandOfWordsRoundTripAcquisition(c);
    } else if c.Led? || c.Dout? || c.Endo? {
      CommandOfWordsRoundTripOutputs(c);
    } else if TwoNumberVerb(c) {
      CommandOfWordsRoundTripTwoNumbers(c);
    } else {
      CommandOfWordsRoundTripBare(c);
    }
  }

  lemma CommandOfWordsRoundTripPadded(c: Command)
    requires PaddedVerb(c)
    ensures CommandOfWords(FrameWordsOf(c)) == Some(c)
  {
    match c
    case Info(n) => OneNumberWords("info", n);
    case Ps(n) => OneNumberWords("ps", n);
    case Dec(n) => OneNumberWords("dec", n);
  }

  lemma CommandOfWordsRoundTripAcquisition(c: Command)
    requires c.Start? || c.Srate? || c.Ffl?
    ensures CommandOfWords(FrameWordsOf(c)) == Some(c)
  {
    match c
    case Start(n) => OneNumberWords("start", n);
    case Srate(n) => OneNumberWords("srate", n);
    case Ffl(n) => OneNumberWords("ffl", n);
  }

  lemma CommandOfWordsRoundTripOutputs(c: Command)
    requires c.Led? || c.Dout? || c.Endo?
    ensures CommandOfWords(FrameWordsOf(c)) == Some(c)
  {
    match c
    case Led(n) => OneNumberWords("led", n);
    case Dout(n) => OneNumberWords("dout", n);
    case Endo(n) => OneNumberWords("endo", n);
  }

  lemma CommandOfWordsRoundTripTwoNumbers(c: Command)
    requires TwoNumberVerb(c)
    ensures CommandOfWords(FrameWordsOf(c)) == Some(c)
  {
    match c
    case Slist(a, b) => TwoNumberWords("slist", a, b);
    case Filter(a, b) => TwoNumberWords("filter", a, b);
  }

  lemma CommandOfWordsRoundTripBare(c: Command)
    requires BareVerb(c)
    ensures CommandOfWords(FrameWordsOf(c)) == Some(c)
  {
    match c
    case Stop =>
    case Din =>
    case Reset =>
  }

  /**
    The frame round trip: reading back any frame the driver writes yields
    the very command it was built from, padding quirks notwithstanding.
  */
  lemma ParseCommandFrame(c: Command)
    ensures ParseFrame(CommandFrame(c)) == Some(c)
  {
    ParseFrameWords(c);
    CommandOfWordsRoundTrip(c);
  }

  /** Distinct commands are written as distinct frames. */
  lemma FramesDistinct(c1: Command, c2: Command)
    requires c1 != c2
    ensures CommandFrame(c1) != CommandFrame(c2)
  {
    ParseCommandFrame(c1);
    ParseCommandFrame(c2);
  }

  // ---------------------------------------------------------------------
  // Replies
  // ---------------------------------------------------------------------

  /** `_read_command_response` after its read: the block decoded as ASCII, or the exception raised. */
  function ReplyText(o: ReadOutcome): (r: Result<string>)
    ensures o.TimedOut? ==> r == Err(ReadTimeout)
    ensures o.Block? ==> (r.Ok? <==> forall i :: 0 <= i < |o.data| ==> o.data[i] < 128)
    ensures r.Err? ==> r.error == ReadTimeout || r.error == NonAsciiReply
    ensures r.Ok? ==> o.Block? && IsAscii(r.value) && Encode(r.value) == o.data
  {
    match o
    case TimedOut => Err(ReadTimeout)
    case Block(data) =>
      match Decode(data)
      case None => Err(NonAsciiReply)
      case Some(text) =>
        EncodeDecode(data);
        Ok(text)
  }

  /** An ASCII reply reads back as the text it encodes. */
  lemma ReplyTextOfAscii(text: string)
    requires IsAscii(text)
    ensures ReplyText(Block(Encode(text))) == Ok(text)
  {
    DecodeEncode(text);
  }

  /** The text `info` splits its reply on: "info", its argument token, then one more space. */
  function EchoPrefix(selector: int): (p: string)
    ensures |p| >= 7 && p[..5] == "info " && p[|p| - 1] == ' '
  {
    "info " + InfoArg(selector) + " "
  }

  /** For selector 0 the expected echo ends in two spaces; for every other selector in one. */
  lemma EchoPrefixShape(selector: int)
    ensures selector == 0 ==> EchoPrefix(selector) == "info 0  "
    ensures selector != 0 ==> EchoPrefix(selector) == "info " + IntToString(selector) + " "
  {
    IntToStringIsZero(selector);
  }

  /** The expected echo is ASCII and starts with 'i'. */
  lemma EchoPrefixAscii(selector: int)
    ensures IsAscii(EchoPrefix(selector)) && EchoPrefix(selector)[0] == 'i'
  {
    NumberToken(selector);
    assert IsAscii(InfoArg(selector));
    IsAsciiConcat("info ", InfoArg(selector));
    IsAsciiConcat("info " + InfoArg(selector), " ");
  }

  /**
    `info`'s parse of its reply: the stripped text between the first
    occurrence of the expected echo and the next one (or the end); the
    IndexError Python raises when the echo is absent.
  */
  function InfoPayload(reply: string, selector: int): (r: Result<string>)
    ensures r.Err? ==> r.error == EchoPrefixMissing
    ensures r.Ok? ==> r.value == [] || (!IsSpace(r.value[0]) && !IsSpace(r.value[|r.value| - 1]))
  {
    match SecondPiece(reply, EchoPrefix(selector))
    case None => Err(EchoPrefixMissing)
    case Some(piece) => Ok(Strip(piece))
  }

  /** `info` fails exactly when the expected echo occurs nowhere in the reply. */
  lemma InfoPayloadFails(reply: string, selector: int)
    ensures InfoPayload(reply, selector).Err? <==> forall j :: !OccursAt(reply, EchoPrefix(selector), j)
  {
    SecondPieceMissing(reply, EchoPrefix(selector));
  }

  /**
    The echo round trip for `info`: a reply made of the expected echo and a
    payload padded with whitespace yields that payload.
  */
  lemma InfoPayloadOfEcho(selector: int, lead: string, payload: string, trail: string)
    requires AllSpace(lead) && AllSpace(trail)
    requires payload == [] || (!IsSpace(payload[0]) && !IsSpace(payload[|payload| - 1]))
    requires forall j :: !OccursAt(lead + payload + trail, EchoPrefix(selector), j)
    ensures InfoPayload(EchoPrefix(selector) + lead + payload + trail, selector) == Ok(payload)
  {
    var p := lead + payload + trail;
    assert EchoPrefix(selector) + lead + payload + trail == EchoPrefix(selector) + p;
    SecondPieceAfterPrefix(EchoPrefix(selector), p);
    StripPadded(lead, payload, trail);
  }

  /** `info n`: the read, the ASCII decoding and the echo parse together. */
  function InfoResult(o: ReadOutcome, selector: int): (r: Result<string>)
    ensures o.TimedOut? ==> r == Err(ReadTimeout)
    ensures r.Err? ==> r.error == ReadTimeout || r.error == NonAsciiReply || r.error == EchoPrefixMissing
  {
    match ReplyText(o)
    case Err(e) => Err(e)
    case Ok(text) => InfoPayload(text, selector)
  }

  /**
    The `info` round trip through the endpoint: an ASCII reply made of the
    expected echo, whitespace, a payload without the letter 'i' and more
    whitespace yields that payload.
  */
  lemma InfoResultOfEcho(selector: int, lead: string, payload: string, trail: string)
    requires AllSpace(lead) && AllSpace(trail)
    requires IsAscii(payload) && 'i' !in payload
    requires payload == [] || (!IsSpace(payload[0]) && !IsSpace(payload[|payload| - 1]))
    ensures var text := EchoPrefix(selector) + lead + payload + trail;
      IsAscii(text) && InfoResult(Block(Encode(text)), selector) == Ok(payload)
  {
    var text := EchoPrefix(selector) + lead + payload + trail;
    EchoReplyAscii(selector, lead, payload, trail);
    ReplyTextOfAscii(text);
    AsciiOfSpace(lead);
    AsciiOfSpace(trail);
    NoEchoWithoutI(lead + payload + trail, selector);
    InfoPayloadOfEcho(selector, lead, payload, trail);
  }

  /** An echo followed by ASCII text is ASCII. */
  lemma EchoReplyAscii(selector: int, lead: string, payload: string, trail: string)
    requires AllSpace(lead) && AllSpace(trail) && IsAscii(payload)
    ensures IsAscii(EchoPrefix(selector) + lead + payload + trail)
  {
    var prefix := EchoPrefix(selector);
    EchoPrefixAscii(selector);
    AsciiOfSpace(lead);
    AsciiOfSpace(trail);
    IsAsciiConcat(prefix, lead);
    IsAsciiConcat(prefix + lead, payload);
    IsAsciiConcat(prefix + lead + payload, trail);
  }

  /** `ps`'s check: the reply, with trailing whitespace removed, is "ps " and the index. */
  function PsEchoMatches(reply: string, index: int): bool {
    RStrip(reply) == "ps " + IntToString(index)
  }

  /**
    The `ps` echo is accepted exactly when the reply is "ps <index>"
    followed by whitespace only; anything else, NUL padding included, is
    rejected.
  */
  lemma PsEchoIff(reply: string, index: int)
    ensures var echo := "ps " + IntToString(index);
      PsEchoMatches(reply, index) <==>
        |echo| <= |reply| && reply[..|echo|] == echo && AllSpace(reply[|echo|..])
  {
    var echo := "ps " + IntToString(index);
    assert echo[|echo| - 1] == IntToString(index)[|IntToString(index)| - 1];
    RStripIff(reply, echo);
  }

  /** An instrument that echoes the `ps` frame it was sent satisfies the check. */
  lemma PsAcceptsOwnFrame(index: int)
    ensures PsEchoMatches(CommandFrame(Ps(index)), index)
  {
    PsPadding(index);
    var echo := "ps " + IntToString(index);
    var f := CommandFrame(Ps(index));
    assert f == echo + " \r";
    assert f[..|echo|] == echo;
    assert f[|echo|..] == " \r";
    PsEchoIff(f, index);
  }

  /** A NUL byte after the echo defeats the check: rstrip() leaves NUL in place. */
  lemma PsRejectsNulPadding(index: int)
    ensures !PsEchoMatches("ps " + IntToString(index) + [0 as char], index)
  {
    var echo := "ps " + IntToString(index);
    var reply := echo + [0 as char];
    PsEchoIff(reply, index);
    assert reply[|echo|..] == [0 as char];
  }

  /** `ps n`: the read, the ASCII decoding and the echo comparison together. */
  function PsResult(o: ReadOutcome, index: int): (r: Result<bool>)
    ensures o.TimedOut? ==> r == Err(ReadTimeout)
    ensures o.Block? ==> (r.Ok? <==> forall i :: 0 <= i < |o.data| ==> o.data[i] < 128)
    ensures r.Err? ==> r.error == ReadTimeout || r.error == NonAsciiReply
  {
    match ReplyText(o)
    case Err(e) => Err(e)
    case Ok(text) => Ok(PsEchoMatches(text, index))
  }

  /** `check_connection`: whether the `info 0` payload is exactly "DATAQ". */
  function ConnectionResult(o: ReadOutcome): (r: Result<bool>)
    ensures o.TimedOut? ==> r == Err(ReadTimeout)
    ensures r.Err? ==> r.error == ReadTimeout || r.error == NonAsciiReply || r.error == EchoPrefixMissing
  {
    match InfoResult(o, 0)
    case Err(e) => Err(e)
    case Ok(payload) => Ok(payload == "DATAQ")
  }

  lemma AsciiOfSpace(s: string)
    requires AllSpace(s)
    ensures IsAscii(s) && 'i' !in s
  {
    assert forall k :: 0 <= k < |s| ==> IsSpace(s[k]);
  }

  /** No `info` echo can occur in text without the letter 'i'. */
  lemma NoEchoWithoutI(s: string, selector: int)
    requires 'i' !in s
    ensures forall j :: !OccursAt(s, EchoPrefix(selector), j)
  {
    var prefix := EchoPrefix(selector);
    EchoPrefixAscii(selector);
    forall j ensures !OccursAt(s, prefix, j) {
      if 0 <= j && j + |prefix| <= |s| {
        assert s[j..j + |prefix|][0] == s[j] != prefix[0];
      }
    }
  }

  /**
    `check_connection` succeeds on the echo "info 0  " followed by "DATAQ"
    padded with whitespace.
  */
  lemma ConnectionOfEcho(lead: string, trail: string)
    requires AllSpace(lead) && AllSpace(trail)
    ensures ConnectionResult(Block(Encode(EchoPrefix(0) + lead + "DATAQ" + trail))) == Ok(true)
  {
    assert IsAscii("DATAQ") && 'i' !in "DATAQ";
    InfoResultOfEcho(0, lead, "DATAQ", trail);
  }

  /** NUL padding after "DATAQ" is not stripped, so `check_connection` then reports false. */
  lemma ConnectionRejectsNulPadding()
    ensures ConnectionResult(Block(Encode(EchoPrefix(0) + "DATAQ" + [0 as char]))) == Ok(false)
  {
    var payload := "DATAQ" + [0 as char];
    assert IsAscii(payload) && 'i' !in payload;
    assert EchoPrefix(0) + "DATAQ" + [0 as char] == EchoPrefix(0) + "" + payload + "";
    InfoResultOfEcho(0, "", payload, "");
    assert payload != "DATAQ";
  }

  /** `get_sample_rate_divisor`: `int()` of the `info 9` payload. */
  function DivisorResult(o: ReadOutcome): (r: Result<int>)
    ensures o.TimedOut? ==> r == Err(ReadTimeout)
    ensures r.Err? ==> r.error in {ReadTimeout, NonAsciiReply, EchoPrefixMissing, NotAnInteger}
  {
    match InfoResult(o, 9)
    case Err(e) => Err(e)
    case Ok(payload) =>
      match ParseInt(payload)
      case None => Err(NotAnInteger)
      case Some(n) => Ok(n)
  }

  /** A decimal numeral contains no letter 'i' and neither starts nor ends with whitespace. */
  lemma NumeralShape(n: int)
    ensures 'i' !in IntToString(n)
    ensures !IsSpace(IntToString(n)[0]) && !IsSpace(IntToString(n)[|IntToString(n)| - 1])
  {
    var s := IntToString(n);
    forall k | 0 <= k < |s| ensures s[k] == '-' || IsDigit(s[k]) {
      if n < 0 && k > 0 {
        assert s[k] == s[1..][k - 1];
      }
    }
  }

  /** The `info 9` echo followed by a numeral yields that numeral as the payload. */
  lemma InfoOfNumeral(n: int)
    ensures InfoResult(Block(Encode(EchoPrefix(9) + IntToString(n))), 9) == Ok(IntToString(n))
  {
    var digits := IntToString(n);
    NumeralShape(n);
    assert EchoPrefix(9) + digits == EchoPrefix(9) + "" + digits + "";
    InfoResultOfEcho(9, "", digits, "");
  }

  /**
    The divisor round trip: an `info 9` echo followed by the decimal
    rendering of a divisor yields that divisor.
  */
  lemma DivisorOfEcho(n: int)
    ensures DivisorResult(Block(Encode(EchoPrefix(9) + IntToString(n)))) == Ok(n)
  {
    InfoOfNumeral(n);
    ParseIntOfIntToString(n);
  }

  /**
    `int()` skips whitespace after the sign, so the reply "info 9 - 5"
    yields the divisor -5 rather than a ValueError.
  */
  lemma DivisorOfSpacedSign(m: nat)
    ensures DivisorResult(Block(Encode(EchoPrefix(9) + "- " + NatToString(m)))) == Ok(-(m as int))
  {
    InfoOfSpacedSign(m);
    ParseIntOfSpacedNegative(m);
  }

  /** The `info 9` echo followed by "- " and digits yields that text as the payload. */
  lemma InfoOfSpacedSign(m: nat)
    ensures InfoResult(Block(Encode(EchoPrefix(9) + "- " + NatToString(m))), 9) == Ok("- " + NatToString(m))
  {
    var digits := NatToString(m);
    var payload := "- " + digits;
    assert 'i' !in payload && IsAscii(payload) by {
      assert forall k :: 0 <= k < |payload| ==> payload[k] == '-' || payload[k] == ' ' || IsDigit(payload[k]);
    }
    assert payload[|payload| - 1] == digits[|digits| - 1];
    assert EchoPrefix(9) + "- " + digits == EchoPrefix(9) + [] + payload + [];
    InfoResultOfEcho(9, [], payload, []);
  }
}
