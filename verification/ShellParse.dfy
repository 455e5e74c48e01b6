/** The shell's line parser: words with quotes, redirections and pipes. */
module ShellParse {
  import opened Base
  import opened Text

  const PIPE: byte := 124
  const LESS: byte := 60
  const GREATER: byte := 62
  const AMP: byte := 38
  const SQUOTE: byte := 39
  const DQUOTE: byte := 34
  const ZERO: byte := 48

  datatype FileKind = Input | Output | Append

  datatype Redir = File(kind: FileKind, fd: nat, target: Str) | Dup2(src: nat, dst: nat)

  datatype Command = Command(argv: seq<Str>, redirs: seq<Redir>)

  type Pipeline = seq<Command>

  datatype ParseError = UnterminatedQuote | MissingRedirectionTarget | UnexpectedRedirection | EmptyCommand

  datatype Parsed<+T> = Ok(value: T) | Err(error: ParseError)

  // --- characters ---------------------------------------------------------------------------------------

  predicate White(c: byte) { c == SPACE || 9 <= c <= 13 }

  /** What ends a word outside quotes: vertical tab and form feed do not. */
  predicate Breaks(c: byte) { c in {SPACE, 9, 10, 13, PIPE, LESS, GREATER} }

  predicate Digit(c: byte) { ZERO <= c <= 57 }

  function SkipWhite(s: Str): (r: Str)
    ensures |r| <= |s| && (r != [] ==> !White(r[0]))
  {
    if s != [] && White(s[0]) then SkipWhite(s[1..]) else s
  }

  /** Number of digits in front. */
  function DigitRun(s: Str): (n: nat)
    ensures n <= |s| && (forall i :: 0 <= i < n ==> Digit(s[i])) && (n < |s| ==> !Digit(s[n]))
  {
    if s != [] && Digit(s[0]) then 1 + DigitRun(s[1..]) else 0
  }

  function Decimal(s: Str): nat
    requires forall i :: 0 <= i < |s| ==> Digit(s[i])
  {
    if s == [] then 0
    else
      assert Digit(s[|s| - 1]);
      10 * Decimal(s[..|s| - 1]) + (s[|s| - 1] as int - ZERO)
  }

  // --- tokens -------------------------------------------------------------------------------------------

  /** A number directly in front of a redirection operator, and the text behind it. */
  function LeadingFd(s: Str): (r: (Option<nat>, Str))
    ensures |r.1| <= |s|
  {
    var n := DigitRun(s);
    if n == 0 || n == |s| || (s[n] != LESS && s[n] != GREATER) then (None, s) else (Some(Decimal(s[..n])), s[n..])
  }

  function FdToken(s: Str): (r: Option<(nat, Str)>)
    ensures r.Some? ==> |r.value.1| < |s|
  {
    var n := DigitRun(s);
    if n == 0 then None else Some((Decimal(s[..n]), s[n..]))
  }

  datatype Quote = Bare | Single | Double

  function WordEnd(rest: Str, quote: Quote, out: Str): Parsed<(Str, Str)>
  {
    if !quote.Bare? then Err(UnterminatedQuote) else if out == [] then Err(UnexpectedRedirection) else Ok((out, rest))
  }

  /** A word and the text behind it, from inside the given quotes. */
  function WordFrom(s: Str, quote: Quote, out: Str): (r: Parsed<(Str, Str)>)
    ensures r.Ok? ==> |r.value.1| <= |s| && |r.value.0| >= |out| && (|r.value.0| > |out| ==> |r.value.1| < |s|)
  {
    if s == [] then WordEnd(s, quote, out)
    else if quote.Bare? then
      if Breaks(s[0]) then WordEnd(s, quote, out)
      else if s[0] == SQUOTE then WordFrom(s[1..], Single, out)
      else if s[0] == DQUOTE then WordFrom(s[1..], Double, out)
      else WordFrom(s[1..], Bare, out + [s[0]])
    else if s[0] == (if quote.Single? then SQUOTE else DQUOTE) then WordFrom(s[1..], Bare, out)
    else WordFrom(s[1..], quote, out + [s[0]])
  }

  // --- lines --------------------------------------------------------------------------------------------

  /** Finished commands, the one being read, and a redirection that still needs its target. */
  datatype PState = PState(done: Pipeline, argv: seq<Str>, redirs: seq<Redir>, pending: Option<(nat, FileKind)>)

  const START: PState := PState([], [], [], None)

  function Or(fd: Option<nat>, default: nat): nat { if fd.Some? then fd.value else default }

  /** One round of the parser on text that starts with something to read. */
  function Token(s: Str, st: PState): (r: Parsed<(Str, PState)>)
    requires s != []
    ensures r.Ok? ==> |r.value.0| < |s|
  {
    if st.pending.Some? then
      match WordFrom(s, Bare, [])
      case Err(e) => Err(e)
      case Ok((word, rest)) =>
        Ok((rest, st.(redirs := st.redirs + [File(st.pending.value.1, st.pending.value.0, word)], pending := None)))
    else if s[0] == PIPE then
      if st.argv == [] then Err(EmptyCommand)
      else Ok((s[1..], PState(st.done + [Command(st.argv, st.redirs)], [], [], None)))
    else
      var (fd, rest) := LeadingFd(s);
      if |rest| > 1 && rest[0] == GREATER && rest[1] == AMP then
        match FdToken(rest[2..])
        case None => Err(UnexpectedRedirection)
        case Some((dst, rest')) => Ok((rest', st.(redirs := st.redirs + [Dup2(Or(fd, 1), dst)])))
      else if |rest| > 0 && rest[0] == LESS then Ok((rest[1..], st.(pending := Some((Or(fd, 0), Input)))))
      else if |rest| > 0 && rest[0] == GREATER then
        if |rest| > 1 && rest[1] == GREATER then Ok((rest[2..], st.(pending := Some((Or(fd, 1), Append)))))
        else Ok((rest[1..], st.(pending := Some((Or(fd, 1), Output)))))
      else
        match WordFrom(s, Bare, [])
        case Err(e) => Err(e)
        case Ok((word, rest')) => Ok((rest', st.(argv := st.argv + [word])))
  }

  /** The state at the end of the line. */
  function RunFrom(s: Str, st: PState): Parsed<PState>
    decreases |s|
  {
    var s' := SkipWhite(s);
    if s' == [] then Ok(st)
    else
      match Token(s', st)
      case Err(e) => Err(e)
      case Ok((rest, st')) => RunFrom(rest, st')
  }

  function Finish(st: PState): Parsed<Pipeline>
  {
    if st.pending.Some? then Err(MissingRedirectionTarget)
    else if st.argv != [] then Ok(st.done + [Command(st.argv, st.redirs)])
    else if st.redirs != [] then Err(EmptyCommand)
    else Ok(st.done)
  }

  function ParseFrom(s: Str, st: PState): Parsed<Pipeline>
  {
    match RunFrom(s, st)
    case Err(e) => Err(e)
    case Ok(st') => Finish(st')
  }

  function Parse(line: Str): Parsed<Pipeline> { ParseFrom(line, START) }

  // --- the parser's loops -------------------------------------------------------------------------------

  method SkipWhitespace(line: Str, index: nat) returns (i: nat)
    requires index <= |line|
    ensures index <= i <= |line| && line[i..] == SkipWhite(line[index..])
  {
    i := index;
    while i < |line| && White(line[i])
      invariant index <= i <= |line| && SkipWhite(line[i..]) == SkipWhite(line[index..])
    {
      assert line[i..][1..] == line[i + 1..];
      i := i + 1;
    }
  }

  method ParseLeadingFd(line: Str, start: nat) returns (fd: Option<nat>, end: nat)
    requires start <= |line|
    ensures start <= end <= |line| && (fd, line[end..]) == LeadingFd(line[start..])
  {
    var s := line[start..];
    if start >= |line| || !Digit(line[start]) {
      return None, start;
    }
    var j := RunEnd(line, start);
    if j >= |line| || (line[j] != LESS && line[j] != GREATER) {
      return None, start;
    }
    assert line[start..j] == s[..j - start] && line[j..] == s[j - start..];
    return Some(Decimal(line[start..j])), j;
  }

  /** The end of the digits from `start` on. */
  method RunEnd(line: Str, start: nat) returns (j: nat)
    requires start <= |line|
    ensures start <= j <= |line| && j - start == DigitRun(line[start..])
  {
    j := start;
    while j < |line| && Digit(line[j])
      invariant start <= j <= |line| && DigitRun(line[start..]) == j - start + DigitRun(line[j..])
    {
      assert line[j..][1..] == line[j + 1..];
      j := j + 1;
    }
  }

  method ParseFdToken(line: Str, start: nat) returns (r: Option<(nat, nat)>)
    requires start <= |line|
    ensures r.None? <==> FdToken(line[start..]).None?
    ensures r.Some? ==> start < r.value.1 <= |line| && FdToken(line[start..]) == Some((r.value.0, line[r.value.1..]))
  {
    var j := RunEnd(line, start);
    if j == start {
      return None;
    }
    assert line[start..j] == line[start..][..j - start] && line[j..] == line[start..][j - start..];
    return Some((Decimal(line[start..j]), j));
  }

  method AllocParseWord(line: Str, index: nat) returns (r: Parsed<Str>, i: nat)
    requires index <= |line|
    ensures index <= i <= |line|
    ensures match WordFrom(line[index..], Bare, [])
      case Err(e) => r == Err(e)
      case Ok((word, rest)) => r == Ok(word) && line[i..] == rest
  {
    var out: Str := [];
    var quote := Bare;
    i := index;
    while i < |line|
      invariant index <= i <= |line| && WordFrom(line[index..], Bare, []) == WordFrom(line[i..], quote, out)
    {
      var ch := line[i];
      assert line[i..][1..] == line[i + 1..];
      match quote {
        case Bare =>
          if Breaks(ch) {
            break;
          } else if ch == SQUOTE {
            quote := Single;
          } else if ch == DQUOTE {
            quote := Double;
          } else {
            out := out + [ch];
          }
        case Single =>
          if ch == SQUOTE { quote := Bare; } else { out := out + [ch]; }
        case Double =>
          if ch == DQUOTE { quote := Bare; } else { out := out + [ch]; }
      }
      i := i + 1;
    }
    if !quote.Bare? {
      return Err(UnterminatedQuote), i;
    }
    if out == [] {
      return Err(UnexpectedRedirection), i;
    }
    return Ok(out), i;
  }

  method AllocParse(line: Str) returns (r: Parsed<Pipeline>)
    ensures r == Parse(line)
  {
    var i := 0;
    var st := START;
    assert line[0..] == line;
    while true
      invariant 0 <= i <= |line| && ParseFrom(line[i..], st) == Parse(line)
      decreases |line| - i
    {
      i := SkipWhitespace(line, i);
      if i >= |line| {
        break;
      }
      var next := ParseToken(line, i, st);
      if next.Err? {
        return Err(next.error);
      }
      i, st := next.value.0, next.value.1;
    }
    if st.pending.Some? {
      return Err(MissingRedirectionTarget);
    }
    if st.argv != [] || st.redirs != [] {
      if st.argv == [] {
        return Err(EmptyCommand);
      }
      return Ok(st.done + [Command(st.argv, st.redirs)]);
    }
    return Ok(st.done);
  }

  /** The body of the parser's loop behind skipped whitespace. */
  method ParseToken(line: Str, start: nat, st: PState) returns (r: Parsed<(nat, PState)>)
    requires start < |line|
    ensures match Token(line[start..], st)
      case Err(e) => r == Err(e)
      case Ok((rest, st')) => r.Ok? && start < r.value.0 <= |line| && line[r.value.0..] == rest && r.value.1 == st'
  {
    hide WordFrom, DigitRun, Decimal, LeadingFd, FdToken;
    var word, i;
    if st.pending.Some? {
      word, i := AllocParseWord(line, start);
      if word.Err? {
        return Err(word.error);
      }
      return Ok((i, st.(redirs := st.redirs + [File(st.pending.value.1, st.pending.value.0, word.value)],
        pending := None)));
    }
    if line[start] == PIPE {
      if st.argv == [] {
        return Err(EmptyCommand);
      }
      assert line[start..][1..] == line[start + 1..];
      return Ok((start + 1, PState(st.done + [Command(st.argv, st.redirs)], [], [], None)));
    }
    var fd, op := ParseLeadingFd(line, start);
    ghost var rest := line[op..];
    if op < |line| {
      assert rest[1..] == line[op + 1..];
      if op + 1 < |line| {
        assert rest[2..] == line[op + 2..];
        assert line[op..op + 2] == [rest[0], rest[1]];
        if line[op..op + 2] == [GREATER, AMP] {
          var dst := ParseFdToken(line, op + 2);
          if dst.None? {
            return Err(UnexpectedRedirection);
          }
          return Ok((dst.value.1, st.(redirs := st.redirs + [Dup2(Or(fd, 1), dst.value.0)])));
        }
      }
      if line[op] == LESS {
        return Ok((op + 1, st.(pending := Some((Or(fd, 0), Input)))));
      }
      if line[op] == GREATER {
        if op + 1 < |line| && line[op + 1] == GREATER {
          return Ok((op + 2, st.(pending := Some((Or(fd, 1), Append)))));
        }
        return Ok((op + 1, st.(pending := Some((Or(fd, 1), Output)))));
      }
    }
    word, i := AllocParseWord(line, start);
    if word.Err? {
      return Err(word.error);
    }
    return Ok((i, st.(argv := st.argv + [word.value])));
  }

  // --- written lines ------------------------------------------------------------------------------------

  /** A stretch of a word: as it stands, in single quotes (39) or in double quotes (34). */
  datatype Piece = Plain(text: Str) | InSingle(text: Str) | InDouble(text: Str)

  /** What stands in a line: a word, a redirection with or without descriptor, a duplication with or without source. */
  datatype Item =
    | Arg(word: seq<Piece>)
    | Redirect(fd: Str, kind: FileKind, gap: Str, word: seq<Piece>)
    | Duplicate(fd: Str, dst: Str)

  /** An item and the white space in front of it. */
  datatype Spaced = Spaced(gap: Str, item: Item)

  /** A command as it is written, with the white space behind it. */
  datatype Form = Form(items: seq<Spaced>, end: Str)

  predicate Blank(s: Str) { forall i :: 0 <= i < |s| ==> s[i] in {9, 10, 11, 12, 13, 32} }

  predicate Numeral(s: Str) { forall i :: 0 <= i < |s| ==> 48 <= s[i] <= 57 }

  /** Outside quotes there is no blank, tab, line feed, carriage return, bar, angle bracket or quote. */
  predicate PieceOk(p: Piece)
  {
    match p
    case Plain(t) => forall i :: 0 <= i < |t| ==> t[i] !in {32, 9, 10, 13, 124, 60, 62, 39, 34}
    case InSingle(t) => 39 !in t
    case InDouble(t) => 34 !in t
  }

  function PieceText(p: Piece): Str
  {
    match p
    case Plain(t) => t
    case InSingle(t) => [39] + t + [39]
    case InDouble(t) => [34] + t + [34]
  }

  function WordText(word: seq<Piece>): Str
  {
    if word == [] then [] else PieceText(word[0]) + WordText(word[1..])
  }

  function WordValue(word: seq<Piece>): Str
  {
    if word == [] then [] else word[0].text + WordValue(word[1..])
  }

  predicate PiecesOk(word: seq<Piece>) { forall i :: 0 <= i < |word| ==> PieceOk(word[i]) }

  /** A word is not empty and does not start with white space. */
  predicate WordOk(word: seq<Piece>)
  {
    && PiecesOk(word)
    && WordValue(word) != [] && (WordText(word) != [] ==> !Blank(WordText(word)[..1]))
  }

  function OpText(kind: FileKind): Str
  {
    match kind
    case Input => [60]
    case Output => [62]
    case Append => [62, 62]
  }

  function ItemText(item: Item): Str
  {
    match item
    case Arg(word) => WordText(word)
    case Redirect(fd, kind, gap, word) => fd + OpText(kind) + gap + WordText(word)
    case Duplicate(fd, dst) => fd + [62, 38] + dst
  }

  /** The text behind a word: nothing, or what ends it. */
  predicate EndsWord(rest: Str) { rest != [] ==> rest[0] in {32, 9, 10, 13, 124, 60, 62} }

  /** An item is read as such in front of the given text. */
  predicate ItemOk(item: Item, rest: Str)
  {
    match item
    case Arg(word) =>
      && WordOk(word) && EndsWord(rest)
      && (Numeral(WordText(word)) && rest != [] ==> rest[0] !in {60, 62})
    case Redirect(fd, kind, gap, word) =>
      && Numeral(fd) && Blank(gap) && WordOk(word) && EndsWord(rest)
      && (kind.Output? && gap == [] && WordText(word) != [] ==> WordText(word)[0] != 38)
    case Duplicate(fd, dst) =>
      && Numeral(fd) && Numeral(dst) && dst != [] && (rest != [] ==> !Numeral(rest[..1]))
  }

  function ItemsText(items: seq<Spaced>, end: Str): Str
  {
    if items == [] then end else items[0].gap + ItemText(items[0].item) + ItemsText(items[1..], end)
  }

  predicate ItemsOk(items: seq<Spaced>, end: Str)
  {
    if items == [] then Blank(end)
    else
      && Blank(items[0].gap) && ItemOk(items[0].item, ItemsText(items[1..], end))
      && ItemsOk(items[1..], end)
  }

  predicate FormsOk(forms: seq<Form>)
  {
    forms != [] && forall i :: 0 <= i < |forms| ==> ItemsOk(forms[i].items, forms[i].end)
  }

  /** The written commands with bars (124) between them. */
  function LineText(forms: seq<Form>): Str
    requires forms != []
  {
    var first := ItemsText(forms[0].items, forms[0].end);
    if |forms| == 1 then first else first + [124] + LineText(forms[1..])
  }

  // what they stand for

  function Args(items: seq<Spaced>): seq<Str>
  {
    if items == [] then []
    else
      match items[0].item
      case Arg(word) => [WordValue(word)] + Args(items[1..])
      case _ => Args(items[1..])
  }

  /** Without a descriptor `<` is about 0 and the others are about 1. */
  function Redirs(items: seq<Spaced>): seq<Redir>
  {
    if items == [] then []
    else
      match items[0].item
      case Arg(_) => Redirs(items[1..])
      case Redirect(fd, kind, _, word) =>
        var default := if kind.Input? then 0 else 1;
        [File(kind, if fd == [] then default else Value(fd), WordValue(word))] + Redirs(items[1..])
      case Duplicate(fd, dst) => [Dup2(if fd == [] then 1 else Value(fd), Value(dst))] + Redirs(items[1..])
  }

  /** The value of a decimal number. */
  function Value(s: Str): nat
  {
    if s == [] || s[|s| - 1] < 48 then 0 else 10 * Value(s[..|s| - 1]) + (s[|s| - 1] as int - 48)
  }

  /** Every command has a word; behind the last bar there may be nothing. */
  predicate Complete(forms: seq<Form>)
  {
    forall i :: 0 <= i < |forms| ==> Args(forms[i].items) != [] || (i == |forms| - 1 && forms[i].items == [])
  }

  function Meaning(forms: seq<Form>): Pipeline
  {
    if forms == [] || (|forms| == 1 && forms[0].items == []) then []
    else [Command(Args(forms[0].items), Redirs(forms[0].items))] + Meaning(forms[1..])
  }

  // words

  lemma {:induction false} PlainReads(t: Str, rest: Str, out: Str)
    requires PieceOk(Plain(t))
    ensures WordFrom(t + rest, Bare, out) == WordFrom(rest, Bare, out + t)
  {
    if t == [] {
      assert t + rest == rest && out + t == out;
    } else {
      assert (t + rest)[1..] == t[1..] + rest && out + [t[0]] + t[1..] == out + t;
      assert PieceOk(Plain(t[1..]));
      PlainReads(t[1..], rest, out + [t[0]]);
    }
  }

  /** Inside quotes everything up to the closing one is taken as it is. */
  lemma {:induction false} QuoteReads(t: Str, quote: Quote, rest: Str, out: Str)
    requires !quote.Bare? && Mark(quote) !in t
    ensures WordFrom(t + [Mark(quote)] + rest, quote, out) == WordFrom(rest, Bare, out + t)
  {
    var s := t + [Mark(quote)] + rest;
    if t == [] {
      assert s[1..] == rest && out + t == out;
    } else {
      assert s[1..] == t[1..] + [Mark(quote)] + rest && out + [t[0]] + t[1..] == out + t;
      QuoteReads(t[1..], quote, rest, out + [t[0]]);
    }
  }

  function Mark(quote: Quote): byte { if quote.Single? then 39 else 34 }

  lemma PieceReads(p: Piece, rest: Str, out: Str)
    requires PieceOk(p)
    ensures WordFrom(PieceText(p) + rest, Bare, out) == WordFrom(rest, Bare, out + p.text)
  {
    match p {
      case Plain(t) => PlainReads(t, rest, out);
      case InSingle(t) =>
        assert PieceText(p) + rest == [39] + (t + [39] + rest);
        QuoteReads(t, Single, rest, out);
        QuoteOpens(Single, t + [39] + rest, out);
      case InDouble(t) =>
        assert PieceText(p) + rest == [34] + (t + [34] + rest);
        QuoteReads(t, Double, rest, out);
        QuoteOpens(Double, t + [34] + rest, out);
    }
  }

  lemma QuoteOpens(quote: Quote, s: Str, out: Str)
    requires !quote.Bare?
    ensures WordFrom([Mark(quote)] + s, Bare, out) == WordFrom(s, quote, out)
  {
    assert ([Mark(quote)] + s)[1..] == s;
  }

  lemma {:induction false} PiecesRead(word: seq<Piece>, rest: Str, out: Str)
    requires PiecesOk(word)
    ensures WordFrom(WordText(word) + rest, Bare, out) == WordFrom(rest, Bare, out + WordValue(word))
  {
    hide PieceOk, PieceText, WordFrom;
    if word == [] {
      assert WordText(word) + rest == rest && out + WordValue(word) == out;
    } else {
      assert WordText(word) + rest == PieceText(word[0]) + (WordText(word[1..]) + rest);
      PieceReads(word[0], WordText(word[1..]) + rest, out);
      assert out + WordValue(word) == out + word[0].text + WordValue(word[1..]);
      PiecesRead(word[1..], rest, out + word[0].text);
    }
  }

  /** A written word is read as the text of its pieces. */
  lemma WordReads(word: seq<Piece>, rest: Str)
    requires PiecesOk(word) && EndsWord(rest)
    ensures WordFrom(WordText(word) + rest, Bare, []) ==
      if WordValue(word) == [] then Err(UnexpectedRedirection) else Ok((WordValue(word), rest))
  {
    PiecesRead(word, rest, []);
    hide WordText, WordValue;
    assert [] + WordValue(word) == WordValue(word);
    assert rest != [] ==> Breaks(rest[0]);
  }

  lemma {:induction false} TextOfWord(word: seq<Piece>)
    ensures WordValue(word) != [] ==> WordText(word) != []
  {
    if word != [] {
      TextOfWord(word[1..]);
    }
  }

  /** The first character of a word that is no digit is no angle bracket; none is a bar. */
  lemma {:induction false} WordHasNoOperator(word: seq<Piece>, n: nat)
    requires PiecesOk(word) && n < |WordText(word)|
    requires Numeral(WordText(word)[..n])
    ensures WordText(word)[n] !in {124, 60, 62}
  {
    var first, t := PieceText(word[0]), WordText(word);
    assert PieceOk(word[0]);
    if n < |first| {
      if n > 0 { assert t[..n][0] == first[0]; }
    } else {
      forall i | 0 <= i < n - |first| ensures 48 <= WordText(word[1..])[i] <= 57 {
        assert t[..n][|first| + i] == WordText(word[1..])[i];
      }
      WordHasNoOperator(word[1..], n - |first|);
    }
  }

  // numbers

  lemma {:induction false} DigitRunIs(d: Str, rest: Str)
    requires forall i :: 0 <= i < |d| ==> Digit(d[i])
    requires rest != [] ==> !Digit(rest[0])
    ensures DigitRun(d + rest) == |d|
  {
    if d == [] {
      assert d + rest == rest;
    } else {
      DigitRunIs(d[1..], rest);
      assert (d + rest)[1..] == d[1..] + rest;
    }
  }

  lemma {:induction false} ValueIs(s: Str)
    requires Numeral(s)
    ensures forall i :: 0 <= i < |s| ==> Digit(s[i])
    ensures Decimal(s) == Value(s)
  {
    if s != [] {
      ValueIs(s[..|s| - 1]);
    }
  }

  lemma LeadingIs(fd: Str, rest: Str)
    requires Numeral(fd) && rest != [] && rest[0] in {60, 62}
    ensures LeadingFd(fd + rest) == (if fd == [] then None else Some(Value(fd)), rest)
  {
    ValueIs(fd);
    DigitRunIs(fd, rest);
    var s := fd + rest;
    assert s[..|fd|] == fd && s[|fd|..] == rest;
    hide DigitRun, Decimal, Value;
  }

  lemma FdTokenIs(d: Str, rest: Str)
    requires Numeral(d) && d != [] && (rest != [] ==> !Numeral(rest[..1]))
    ensures FdToken(d + rest) == Some((Value(d), rest))
  {
    ValueIs(d);
    DigitRunIs(d, rest);
    var s := d + rest;
    assert s[..|d|] == d && s[|d|..] == rest;
    hide DigitRun, Decimal, Value;
  }

  /** A word is not taken for a descriptor in front of a redirection. */
  lemma LeadingNone(word: seq<Piece>, rest: Str)
    requires PiecesOk(word) && (rest != [] ==> !Numeral(rest[..1]))
    requires Numeral(WordText(word)) && rest != [] ==> rest[0] !in {60, 62}
    ensures LeadingFd(WordText(word) + rest) == (None, WordText(word) + rest)
  {
    hide WordText, WordValue;
    var t := WordText(word);
    var s := t + rest;
    var n := DigitRun(s);
    if n < |t| {
      forall i | 0 <= i < n ensures 48 <= t[..n][i] <= 57 { assert Digit(s[i]); }
      WordHasNoOperator(word, n);
      assert s[n] == t[n];
    } else {
      forall i | 0 <= i < |t| ensures 48 <= t[i] <= 57 { assert Digit(s[i]); }
      if rest != [] { assert rest[..1][0] == s[|t|]; }
      assert n > |t| ==> Digit(s[|t|]);
    }
  }

  // items

  /** White space in front of anything is skipped. */
  lemma {:induction false} GapSkips(gap: Str, s: Str, st: PState)
    requires Blank(gap)
    ensures SkipWhite(gap + s) == SkipWhite(s) && RunFrom(gap + s, st) == RunFrom(s, st)
  {
    if gap == [] {
      assert gap + s == s;
    } else {
      assert (gap + s)[1..] == gap[1..] + s && gap[0] in {9, 10, 11, 12, 13, 32};
      GapSkips(gap[1..], s, st);
      hide Token;
    }
  }

  /** A text that starts with something to read is read token by token. */
  lemma TokenFirst(s: Str, st: PState)
    requires s != [] && !White(s[0])
    ensures RunFrom(s, st) == match Token(s, st) case Err(e) => Err(e) case Ok((rest, st')) => RunFrom(rest, st')
  {
    hide Token;
  }

  /** What an item adds to the command that is being read. */
  function Put(st: PState, items: seq<Spaced>): PState
  {
    st.(argv := st.argv + Args(items), redirs := st.redirs + Redirs(items))
  }

  lemma StartOfWord(word: seq<Piece>, rest: Str)
    requires WordOk(word)
    ensures var s := WordText(word) + rest;
      WordText(word) != [] && s[0] == WordText(word)[0] && !White(s[0]) && s[0] !in {124, 60, 62}
  {
    hide WordText, WordValue, PieceOk;
    TextOfWord(word);
    WordHasNoOperator(word, 0);
    assert WordText(word)[..1][0] == WordText(word)[0];
  }

  lemma ArgReads(word: seq<Piece>, rest: Str, st: PState)
    requires ItemOk(Arg(word), rest) && st.pending.None?
    ensures RunFrom(WordText(word) + rest, st) == RunFrom(rest, st.(argv := st.argv + [WordValue(word)]))
  {
    hide WordFrom, LeadingFd, FdToken, RunFrom;
    WordReads(word, rest);
    StartOfWord(word, rest);
    assert rest != [] ==> rest[..1][0] == rest[0];
    LeadingNone(word, rest);
    hide WordText, WordValue;
    TokenFirst(WordText(word) + rest, st);
  }

  /** A file that an operator waits for. */
  lemma TargetReads(word: seq<Piece>, rest: Str, st: PState)
    requires WordOk(word) && EndsWord(rest) && st.pending.Some?
    ensures RunFrom(WordText(word) + rest, st) == RunFrom(rest, st.(pending := None,
      redirs := st.redirs + [File(st.pending.value.1, st.pending.value.0, WordValue(word))]))
  {
    hide WordFrom, LeadingFd, FdToken, RunFrom;
    WordReads(word, rest);
    StartOfWord(word, rest);
    hide WordText, WordValue;
    TokenFirst(WordText(word) + rest, st);
  }

  lemma OperatorFirst(fd: Str, op: Str)
    requires Numeral(fd) && op != [] && op[0] in {60, 62}
    ensures fd + op != [] && !White((fd + op)[0]) && (fd + op)[0] != 124
  {
    if fd != [] { assert (fd + op)[0] == fd[0]; }
  }

  lemma OperatorReads(fd: Str, kind: FileKind, rest: Str, st: PState)
    requires Numeral(fd) && st.pending.None? && (rest != [] && kind.Output? ==> rest[0] !in {62, 38})
    ensures var n := if fd != [] then Value(fd) else if kind.Input? then 0 else 1;
      RunFrom(fd + OpText(kind) + rest, st) == RunFrom(rest, st.(pending := Some((n, kind))))
  {
    hide WordFrom, LeadingFd, FdToken, RunFrom, Value;
    var op := OpText(kind) + rest;
    assert fd + OpText(kind) + rest == fd + op;
    assert op[|OpText(kind)|..] == rest && op[0] == OpText(kind)[0];
    OperatorFirst(fd, op);
    LeadingIs(fd, op);
    TokenFirst(fd + op, st);
  }

  lemma RedirectReads(item: Item, rest: Str, st: PState)
    requires item.Redirect? && ItemOk(item, rest) && st.pending.None?
    ensures RunFrom(ItemText(item) + rest, st) == RunFrom(rest, Put(st, [Spaced([], item)]))
  {
    hide RunFrom, WordText, WordValue, Value, WordOk;
    var Redirect(fd, kind, gap, word) := item;
    var target := WordText(word) + rest;
    assert ItemText(item) + rest == fd + OpText(kind) + (gap + target);
    StartOfWord(word, rest);
    assert gap + target != [] && (gap + target)[0] == if gap == [] then target[0] else gap[0];
    OperatorReads(fd, kind, gap + target, st);
    var n := if fd != [] then Value(fd) else if kind.Input? then 0 else 1;
    var st1 := st.(pending := Some((n, kind)));
    GapSkips(gap, target, st1);
    TargetReads(word, rest, st1);
    assert Redirs([Spaced([], item)]) == [File(kind, n, WordValue(word))];
    assert Args([Spaced([], item)]) == [] && st.argv + [] == st.argv;
  }

  lemma DuplicateReads(item: Item, rest: Str, st: PState)
    requires item.Duplicate? && ItemOk(item, rest) && st.pending.None?
    ensures RunFrom(ItemText(item) + rest, st) == RunFrom(rest, Put(st, [Spaced([], item)]))
  {
    hide WordFrom, LeadingFd, FdToken, RunFrom, Value;
    var Duplicate(fd, dst) := item;
    var op := [62, 38] + (dst + rest);
    assert ItemText(item) + rest == fd + op && op[2..] == dst + rest;
    OperatorFirst(fd, op);
    LeadingIs(fd, op);
    FdTokenIs(dst, rest);
    TokenFirst(fd + op, st);
    assert Redirs([Spaced([], item)]) == [Dup2(if fd == [] then 1 else Value(fd), Value(dst))];
    assert Args([Spaced([], item)]) == [] && st.argv + [] == st.argv;
  }

  lemma ItemReads(item: Item, rest: Str, st: PState)
    requires ItemOk(item, rest) && st.pending.None?
    ensures RunFrom(ItemText(item) + rest, st) == RunFrom(rest, Put(st, [Spaced([], item)]))
  {
    match item {
      case Arg(word) =>
        ArgReads(word, rest, st);
        assert Args([Spaced([], item)]) == [WordValue(word)];
        assert Redirs([Spaced([], item)]) == [] && st.redirs + [] == st.redirs;
      case Redirect(_, _, _, _) => RedirectReads(item, rest, st);
      case Duplicate(_, _) => DuplicateReads(item, rest, st);
    }
  }

  lemma PutSteps(st: PState, x: Spaced, items: seq<Spaced>)
    ensures Put(Put(st, [Spaced([], x.item)]), items) == Put(st, [x] + items)
    ensures Put(st, []) == st
  {
    hide WordValue, Value;
    assert ([x] + items)[1..] == items;
    var a, b := Args([Spaced([], x.item)]), Redirs([Spaced([], x.item)]);
    ItemsFrom(x, items);
    assert (st.argv + a) + Args(items) == st.argv + (a + Args(items));
    assert (st.redirs + b) + Redirs(items) == st.redirs + (b + Redirs(items));
  }

  lemma ItemsFrom(x: Spaced, items: seq<Spaced>)
    ensures Args([x] + items) == Args([Spaced([], x.item)]) + Args(items)
    ensures Redirs([x] + items) == Redirs([Spaced([], x.item)]) + Redirs(items)
  {
    hide WordValue, Value;
    assert ([x] + items)[1..] == items && [Spaced([], x.item)][1..] == [];
    if !x.item.Arg? { assert Args([Spaced([], x.item)]) == []; } else { assert Redirs([Spaced([], x.item)]) == []; }
  }

  /** The items of a command are read one after the other, up to the end or the next bar. */
  lemma {:induction false} ItemsRead(items: seq<Spaced>, end: Str, tail: Str, st: PState)
    requires ItemsOk(items, end) && st.pending.None? && (tail != [] ==> tail[0] == 124)
    ensures RunFrom(ItemsText(items, end) + tail, st) == RunFrom(tail, Put(st, items))
  {
    hide RunFrom, ItemOk, ItemText, Put;
    if items == [] {
      GapSkips(end, tail, st);
      PutSteps(st, Spaced([], Duplicate([], [])), []);
    } else {
      var Spaced(gap, item) := items[0];
      var rest := ItemsText(items[1..], end);
      assert ItemsText(items, end) + tail == gap + (ItemText(item) + (rest + tail));
      GapSkips(gap, ItemText(item) + (rest + tail), st);
      ItemBeforeBar(item, rest, tail);
      ItemReads(item, rest + tail, st);
      PutKeeps(st, [Spaced([], item)]);
      ItemsRead(items[1..], end, tail, Put(st, [Spaced([], item)]));
      PutSteps(st, items[0], items[1..]);
      assert items == [items[0]] + items[1..];
    }
  }

  lemma PutKeeps(st: PState, items: seq<Spaced>)
    ensures Put(st, items).pending == st.pending && Put(st, items).done == st.done
    ensures st.argv == [] && st.redirs == [] ==>
      Put(st, items) == PState(st.done, Args(items), Redirs(items), st.pending)
  {
    hide Args, Redirs;
    assert [] + Args(items) == Args(items) && [] + Redirs(items) == Redirs(items);
  }

  lemma ItemBeforeBar(item: Item, rest: Str, tail: Str)
    requires ItemOk(item, rest) && (tail != [] ==> tail[0] == 124)
    ensures ItemOk(item, rest + tail)
  {
    hide WordOk, WordText, WordValue;
    if rest != [] { assert (rest + tail)[0] == rest[0] && (rest + tail)[..1] == rest[..1]; }
    else { assert rest + tail == tail; }
  }

  /**
   A written line means its commands, each with its words and its redirections in order; it is refused
   exactly if a command is missing.
   */
  lemma FormsRead(forms: seq<Form>)
    requires FormsOk(forms)
    ensures Parse(LineText(forms)) == if Complete(forms) then Ok(Meaning(forms)) else Err(EmptyCommand)
  {
    FormsFrom(forms, []);
    assert [] + Meaning(forms) == Meaning(forms);
  }

  lemma {:induction false} FormsFrom(forms: seq<Form>, done: Pipeline)
    requires FormsOk(forms)
    ensures ParseFrom(LineText(forms), PState(done, [], [], None)) ==
      if Complete(forms) then Ok(done + Meaning(forms)) else Err(EmptyCommand)
  {
    hide RunFrom, ItemsOk, ItemsText, Args, Redirs, Put;
    var Form(items, end) := forms[0];
    var st := PState(done, [], [], None);
    var first := ItemsText(items, end);
    var c := Command(Args(items), Redirs(items));
    PutKeeps(st, items);
    NothingSaid(items);
    if |forms| == 1 {
      assert first + [] == first;
      ItemsRead(items, end, [], st);
      RunEmpty(Put(st, items));
      assert Meaning(forms[1..]) == [];
      assert Complete(forms) <==> c.argv != [] || items == [];
      assert items != [] ==> Meaning(forms) == [c];
      assert items == [] ==> done + [] == done;
    } else {
      var rest := LineText(forms[1..]);
      assert LineText(forms) == first + ([124] + rest);
      ItemsRead(items, end, [124] + rest, st);
      PipeToken(rest, Put(st, items));
      assert Complete(forms) <==> c.argv != [] && Complete(forms[1..]) by { CompleteSteps(forms); }
      if c.argv != [] {
        FormsFrom(forms[1..], done + [c]);
        assert done + [c] + Meaning(forms[1..]) == done + ([c] + Meaning(forms[1..]));
      }
    }
  }

  lemma CompleteSteps(forms: seq<Form>)
    requires |forms| > 1
    ensures Complete(forms) <==> Args(forms[0].items) != [] && Complete(forms[1..])
  {
    hide Args;
    if Complete(forms) {
      forall i | 0 <= i < |forms[1..]|
        ensures Args(forms[1..][i].items) != [] || (i == |forms[1..]| - 1 && forms[1..][i].items == [])
      {
        assert forms[1..][i] == forms[i + 1];
      }
    }
    if Args(forms[0].items) != [] && Complete(forms[1..]) {
      forall i | 0 <= i < |forms|
        ensures Args(forms[i].items) != [] || (i == |forms| - 1 && forms[i].items == [])
      {
        if i > 0 { assert forms[1..][i - 1] == forms[i]; }
      }
    }
  }

  /** Where there are items there is a word or a redirection. */
  lemma NothingSaid(items: seq<Spaced>)
    ensures Args(items) == [] && Redirs(items) == [] <==> items == []
  {
    if items != [] && items[0].item.Arg? {
      assert Args(items) != [];
    }
  }

  // lines that are refused

  lemma {:induction false} QuoteOpen(t: Str, quote: Quote, out: Str)
    requires !quote.Bare? && Mark(quote) !in t
    ensures WordFrom(t, quote, out) == Err(UnterminatedQuote)
  {
    if t != [] {
      QuoteOpen(t[1..], quote, out + [t[0]]);
    }
  }

  /** Quotes that are not closed. */
  lemma UnclosedQuote(gap: Str, word: seq<Piece>, quote: Quote, t: Str)
    requires Blank(gap) && PiecesOk(word) && (WordText(word) != [] ==> !Blank(WordText(word)[..1]))
    requires !quote.Bare? && Mark(quote) !in t
    ensures Parse(gap + (WordText(word) + ([Mark(quote)] + t))) == Err(UnterminatedQuote)
  {
    hide WordFrom, LeadingFd, FdToken, RunFrom, Numeral, PieceOk, PieceText, WordText, WordValue, DigitRun, SkipWhite;
    var rest := [Mark(quote)] + t;
    var s := WordText(word) + rest;
    PiecesRead(word, rest, []);
    QuoteOpens(quote, t, [] + WordValue(word));
    QuoteOpen(t, quote, [] + WordValue(word));
    NoDigit(rest);
    LeadingNone(word, rest);
    GapSkips(gap, s, START);
    if WordText(word) != [] {
      NoDigits(WordText(word));
      WordHasNoOperator(word, 0);
      assert WordText(word)[..1][0] == s[0];
    }
    TokenFirst(s, START);
  }

  lemma NoDigits(s: Str)
    ensures Numeral(s[..0])
  {
  }

  lemma NoDigit(s: Str)
    requires s != [] && !Digit(s[0])
    ensures !Numeral(s[..1])
  {
    assert s[..1][0] == s[0];
  }

  /** A word that is only empty quotes. */
  lemma EmptyQuotes(gap: Str, word: seq<Piece>, rest: Str)
    requires Blank(gap) && PiecesOk(word) && WordValue(word) == [] && WordText(word) != [] && EndsWord(rest)
    ensures Parse(gap + (WordText(word) + rest)) == Err(UnexpectedRedirection)
  {
    hide WordFrom, LeadingFd, FdToken, RunFrom, PieceOk, Numeral;
    WordReads(word, rest);
    var s := WordText(word) + rest;
    EmptyStarts(word);
    NoDigit(WordText(word));
    if rest != [] { NoDigit(rest); }
    NotNumeral(WordText(word));
    LeadingNone(word, rest);
    GapSkips(gap, s, START);
    assert s[0] == WordText(word)[0];
    hide WordText, WordValue;
    TokenFirst(s, START);
  }

  lemma NotNumeral(s: Str)
    requires s != [] && !Numeral(s[..1])
    ensures !Numeral(s)
  {
  }

  lemma {:induction false} EmptyStarts(word: seq<Piece>)
    requires WordValue(word) == [] && WordText(word) != []
    ensures WordText(word)[0] in {34, 39}
  {
    if PieceText(word[0]) == [] { EmptyStarts(word[1..]); }
  }

  /** A redirection at the end of the line. */
  lemma NoTarget(gap: Str, fd: Str, kind: FileKind, end: Str)
    requires Blank(gap) && Numeral(fd) && Blank(end)
    ensures Parse(gap + (fd + OpText(kind) + end)) == Err(MissingRedirectionTarget)
  {
    hide RunFrom, Value, OpText, Numeral;
    GapSkips(gap, fd + OpText(kind) + end, START);
    if end != [] { assert end[0] in {9, 10, 11, 12, 13, 32}; }
    OperatorReads(fd, kind, end, START);
    var n := if fd != [] then Value(fd) else if kind.Input? then 0 else 1;
    var st := START.(pending := Some((n, kind)));
    assert end == end + [];
    GapSkips(end, [], st);
    RunEmpty(st);
  }

  /** A redirection in front of a bar or another redirection. */
  lemma BadTarget(gap: Str, fd: Str, kind: FileKind, gap': Str, rest: Str)
    requires Blank(gap) && Numeral(fd) && Blank(gap') && rest != [] && rest[0] in {124, 60, 62}
    requires kind.Output? && gap' == [] ==> rest[0] != 62
    ensures Parse(gap + (fd + OpText(kind) + (gap' + rest))) == Err(UnexpectedRedirection)
  {
    hide RunFrom, Value, OpText, Numeral, SkipWhite;
    GapSkips(gap, fd + OpText(kind) + (gap' + rest), START);
    assert (gap' + rest)[0] == if gap' == [] then rest[0] else gap'[0];
    OperatorReads(fd, kind, gap' + rest, START);
    var n := if fd != [] then Value(fd) else if kind.Input? then 0 else 1;
    var st := START.(pending := Some((n, kind)));
    GapSkips(gap', rest, st);
    NoWord(rest, st);
  }

  lemma NoWord(rest: Str, st: PState)
    requires rest != [] && rest[0] in {124, 60, 62} && st.pending.Some?
    ensures RunFrom(rest, st) == Err(UnexpectedRedirection)
  {
    hide WordFrom, LeadingFd, FdToken, RunFrom;
    WordReads([], rest);
    assert WordText([]) + rest == rest;
    TokenFirst(rest, st);
  }

  /** A duplication without a number. */
  lemma BadDuplicate(gap: Str, fd: Str, rest: Str)
    requires Blank(gap) && Numeral(fd) && (rest != [] ==> !Numeral(rest[..1]))
    ensures Parse(gap + (fd + ([62, 38] + rest))) == Err(UnexpectedRedirection)
  {
    hide WordFrom, LeadingFd, RunFrom, Value;
    var op := [62, 38] + rest;
    GapSkips(gap, fd + op, START);
    OperatorFirst(fd, op);
    LeadingIs(fd, op);
    assert op[2..] == rest;
    assert rest != [] ==> rest[..1][0] == rest[0];
    TokenFirst(fd + op, START);
  }

  // --- every line that is read is a written line -----------------------------------------------------------

  /** `t` up to the end of the quotes, then the pieces of the word and what is behind it. */
  predicate Written(s: Str, quote: Quote, out: Str, t: Str, word: seq<Piece>, end: (Str, Str))
  {
    && PiecesOk(word)
    && EndsWord(end.1) && end.0 == out + t + WordValue(word) && end.0 != []
    && if quote.Bare? then t == [] && s == WordText(word) + end.1
       else Mark(quote) !in t && s == t + [Mark(quote)] + (WordText(word) + end.1)
  }

  /** The pieces of a word that was read. */
  lemma {:induction false} WordIsWritten(s: Str, quote: Quote, out: Str) returns (t: Str, word: seq<Piece>)
    requires WordFrom(s, quote, out).Ok?
    ensures Written(s, quote, out, t, word, WordFrom(s, quote, out).value)
    decreases |s|
  {
    hide Written;
    t, word := [], [];
    if s == [] || (quote.Bare? && Breaks(s[0])) {
      WrittenEnd(s, out);
    } else if quote.Bare? && (s[0] == SQUOTE || s[0] == DQUOTE) {
      var q := if s[0] == SQUOTE then Single else Double;
      var t', word' := WordIsWritten(s[1..], q, out);
      word := WrittenQuote(s, q, out, t', word', WordFrom(s, quote, out).value);
    } else if quote.Bare? {
      var t', word' := WordIsWritten(s[1..], Bare, out + [s[0]]);
      word := WrittenPlain(s, out, t', word', WordFrom(s, quote, out).value);
    } else if s[0] == Mark(quote) {
      var t', word' := WordIsWritten(s[1..], Bare, out);
      word := word';
      WrittenClose(s, quote, out, t', word', WordFrom(s, quote, out).value);
    } else {
      var t', word' := WordIsWritten(s[1..], quote, out + [s[0]]);
      t, word := [s[0]] + t', word';
      WrittenInside(s, quote, out, t', word', WordFrom(s, quote, out).value);
    }
  }

  lemma WrittenEnd(s: Str, out: Str)
    requires out != [] && EndsWord(s)
    ensures Written(s, Bare, out, [], [], (out, s))
  {
    assert [] + s == s && out + [] + [] == out;
  }

  lemma Prepend(p: Piece, word: seq<Piece>) returns (r: seq<Piece>)
    requires PieceOk(p) && PiecesOk(word)
    ensures r == [p] + word && PiecesOk(r)
    ensures WordText(r) == PieceText(p) + WordText(word) && WordValue(r) == p.text + WordValue(word)
  {
    r := [p] + word;
    assert r[1..] == word;
  }

  lemma WrittenQuote(s: Str, q: Quote, out: Str, t: Str, word: seq<Piece>, end: (Str, Str)) returns (r: seq<Piece>)
    requires s != [] && !q.Bare? && s[0] == Mark(q) && Written(s[1..], q, out, t, word, end)
    ensures Written(s, Bare, out, [], r, end)
  {
    hide WordText, WordValue, PiecesOk, EndsWord;
    var p := if q.Single? then InSingle(t) else InDouble(t);
    r := Prepend(p, word);
    Regroup(s, s[0], t, WordText(word), end.1);
    assert out + t + WordValue(word) == out + [] + (t + WordValue(word));
  }

  lemma Regroup(s: Str, c: byte, t: Str, w: Str, rest: Str)
    requires s != [] && s[0] == c && s[1..] == t + [c] + (w + rest)
    ensures s == [c] + t + [c] + w + rest
  {
    assert s == [c] + s[1..];
  }

  lemma WrittenPlain(s: Str, out: Str, t: Str, word: seq<Piece>, end: (Str, Str)) returns (r: seq<Piece>)
    requires s != [] && PieceOk(Plain([s[0]])) && Written(s[1..], Bare, out + [s[0]], t, word, end)
    ensures Written(s, Bare, out, [], r, end)
  {
    hide WordText, WordValue, PiecesOk, PieceOk, EndsWord;
    r := Prepend(Plain([s[0]]), word);
    Moved(s, [s[0]], [], WordText(word), end.1);
    assert out + [s[0]] + [] + WordValue(word) == out + [] + ([s[0]] + WordValue(word));
  }

  lemma Moved(s: Str, a: Str, t: Str, w: Str, rest: Str)
    requires s != [] && a == [s[0]] && s[1..] == t + w + rest
    ensures s == (a + t + w) + rest && (t == [] ==> s == (a + w) + rest)
  {
    assert s == a + s[1..];
  }

  lemma WrittenClose(s: Str, quote: Quote, out: Str, t: Str, word: seq<Piece>, end: (Str, Str))
    requires s != [] && !quote.Bare? && s[0] == Mark(quote) && Written(s[1..], Bare, out, t, word, end)
    ensures Written(s, quote, out, [], word, end)
  {
    hide WordText, WordValue;
    assert s == [] + [s[0]] + s[1..];
  }

  lemma WrittenInside(s: Str, quote: Quote, out: Str, t: Str, word: seq<Piece>, end: (Str, Str))
    requires s != [] && !quote.Bare? && s[0] != Mark(quote) && Written(s[1..], quote, out + [s[0]], t, word, end)
    ensures Written(s, quote, out, [s[0]] + t, word, end)
  {
    hide WordText, WordValue;
    var rest := WordText(word) + end.1;
    assert s == [s[0]] + s[1..];
    assert [s[0]] + (t + [Mark(quote)] + rest) == [s[0]] + t + [Mark(quote)] + rest;
    assert out + [s[0]] + t + WordValue(word) == out + ([s[0]] + t) + WordValue(word);
  }

  lemma {:induction false} GapIsWritten(s: Str) returns (gap: Str)
    ensures Blank(gap) && s == gap + SkipWhite(s)
  {
    if s != [] && White(s[0]) {
      var gap' := GapIsWritten(s[1..]);
      gap := [s[0]] + gap';
    } else {
      gap := [];
    }
  }

  /** The digits in front of an operator, or nothing. */
  lemma LeadingIsWritten(s: Str) returns (fd: Str)
    ensures Numeral(fd) && s == fd + LeadingFd(s).1
  {
    var n := DigitRun(s);
    fd := if LeadingFd(s).0 == None then [] else s[..n];
    forall i | 0 <= i < |fd| ensures 48 <= fd[i] <= 57 { assert Digit(s[i]); }
  }

  lemma TokenIsWritten(s: Str) returns (dst: Str)
    requires FdToken(s).Some?
    ensures var rest := FdToken(s).value.1;
      && Numeral(dst) && dst != [] && s == dst + rest && (rest != [] ==> !Numeral(rest[..1]))
  {
    var n := DigitRun(s);
    dst := s[..n];
    forall i | 0 <= i < |dst| ensures 48 <= dst[i] <= 57 { assert Digit(s[i]); }
    var rest := s[n..];
    if rest != [] { assert !Digit(rest[0]) && rest[..1][0] == rest[0]; }
  }

  /** The file that an operator waited for. */
  lemma TargetIsWritten(s: Str, st: PState) returns (gap: Str, word: seq<Piece>, rest: Str, st': PState)
    requires st.pending.Some? && RunFrom(s, st).Ok? && RunFrom(s, st).value.pending.None?
    ensures Blank(gap) && WordOk(word) && EndsWord(rest) && s == gap + WordText(word) + rest
    ensures st'.pending.None? && RunFrom(s, st) == RunFrom(rest, st')
  {
    hide WordFrom, WordText, WordValue;
    gap := GapIsWritten(s);
    var s' := SkipWhite(s);
    var t;
    t, word := WordIsWritten(s', Bare, []);
    rest, st' := Token(s', st).value.0, Token(s', st).value.1;
    assert s == gap + (WordText(word) + rest);
    FirstIsSolid(word, s', rest);
  }

  /** What is read behind skipped white space does not start with white space. */
  lemma FirstIsSolid(word: seq<Piece>, s: Str, rest: Str)
    requires s == WordText(word) + rest && s != [] && !White(s[0]) && WordValue(word) != []
    requires PiecesOk(word)
    ensures WordOk(word) && WordText(word) != [] && s[0] == WordText(word)[0]
  {
    hide WordText, WordValue, PieceOk;
    TextOfWord(word);
    assert WordText(word)[..1][0] == s[0];
  }

  lemma ArgIsWritten(s: Str, st: PState) returns (item: Item, rest: Str, st': PState)
    requires s != [] && !White(s[0]) && s[0] != PIPE && st.pending.None?
    requires LeadingFd(s).1 != [] ==> LeadingFd(s).1[0] !in {60, 62}
    requires RunFrom(s, st).Ok?
    ensures s == ItemText(item) + rest && ItemOk(item, rest)
    ensures st'.pending.None? && RunFrom(s, st) == RunFrom(rest, st')
  {
    hide WordFrom, LeadingFd, WordText, WordValue, PieceOk, RunFrom;
    TokenFirst(s, st);
    var t, word := WordIsWritten(s, Bare, []);
    rest, st' := Token(s, st).value.0, Token(s, st).value.1;
    item := Arg(word);
    FirstIsSolid(word, s, rest);
    if Numeral(WordText(word)) && rest != [] && rest[0] in {60, 62} { LeadingIs(WordText(word), rest); }
  }

  /** An operator that is no duplication opens a redirection. */
  lemma OperatorIsWritten(s: Str, st: PState) returns (kind: FileKind)
    requires s != [] && s[0] != PIPE && st.pending.None?
    requires var op := LeadingFd(s).1; op != [] && op[0] in {60, 62} && !(|op| > 1 && op[0] == 62 && op[1] == 38)
    ensures Token(s, st).Ok? && Token(s, st).value.1.pending.Some?
    ensures LeadingFd(s).1 == OpText(kind) + Token(s, st).value.0
    ensures kind.Output? && Token(s, st).value.0 != [] ==> Token(s, st).value.0[0] != 38
  {
    hide WordFrom, LeadingFd, FdToken;
    var op := LeadingFd(s).1;
    kind := if op[0] == 60 then Input else if |op| > 1 && op[1] == 62 then Append else Output;
    assert op[..|OpText(kind)|] == OpText(kind);
  }

  lemma RedirIsWritten(s: Str, st: PState) returns (item: Item, rest: Str, st': PState)
    requires s != [] && !White(s[0]) && s[0] != PIPE && st.pending.None?
    requires var op := LeadingFd(s).1; op != [] && op[0] in {60, 62} && !(|op| > 1 && op[0] == 62 && op[1] == 38)
    requires RunFrom(s, st).Ok? && RunFrom(s, st).value.pending.None?
    ensures s == ItemText(item) + rest && ItemOk(item, rest)
    ensures st'.pending.None? && RunFrom(s, st) == RunFrom(rest, st')
  {
    hide Token, LeadingFd, WordText, WordValue, WordOk, RunFrom, OpText;
    TokenFirst(s, st);
    var fd := LeadingIsWritten(s);
    var kind := OperatorIsWritten(s, st);
    var behind := Token(s, st).value.0;
    var gap, word;
    gap, word, rest, st' := TargetIsWritten(behind, Token(s, st).value.1);
    item := Redirect(fd, kind, gap, word);
    assert s == ItemText(item) + rest;
    if gap == [] && WordText(word) != [] { assert behind[0] == WordText(word)[0]; }
  }

  lemma DupIsWritten(s: Str, st: PState) returns (item: Item, rest: Str, st': PState)
    requires s != [] && !White(s[0]) && s[0] != PIPE && st.pending.None?
    requires var op := LeadingFd(s).1; |op| > 1 && op[0] == 62 && op[1] == 38
    requires RunFrom(s, st).Ok?
    ensures s == ItemText(item) + rest && ItemOk(item, rest)
    ensures st'.pending.None? && RunFrom(s, st) == RunFrom(rest, st')
  {
    hide WordFrom, LeadingFd, FdToken, RunFrom;
    TokenFirst(s, st);
    var fd := LeadingIsWritten(s);
    var op := LeadingFd(s).1;
    var dst := TokenIsWritten(op[2..]);
    rest, st' := Token(s, st).value.0, Token(s, st).value.1;
    item := Duplicate(fd, dst);
    assert op == [62, 38] + op[2..];
    assert s == ItemText(item) + rest;
  }

  lemma ItemIsWritten(s: Str, st: PState) returns (item: Item, rest: Str, st': PState)
    requires s != [] && !White(s[0]) && s[0] != PIPE && st.pending.None?
    requires RunFrom(s, st).Ok? && RunFrom(s, st).value.pending.None?
    ensures s == ItemText(item) + rest && ItemOk(item, rest) && |rest| < |s|
    ensures st'.pending.None? && RunFrom(s, st) == RunFrom(rest, st')
  {
    hide LeadingFd, RunFrom, ItemOk, ItemText;
    var op := LeadingFd(s).1;
    if |op| > 1 && op[0] == 62 && op[1] == 38 {
      item, rest, st' := DupIsWritten(s, st);
    } else if op != [] && op[0] in {60, 62} {
      item, rest, st' := RedirIsWritten(s, st);
    } else {
      item, rest, st' := ArgIsWritten(s, st);
    }
    SomethingWritten(item, rest);
  }

  lemma SomethingWritten(item: Item, rest: Str)
    requires ItemOk(item, rest)
    ensures ItemText(item) != []
  {
    if item.Arg? { TextOfWord(item.word); }
    hide WordText, WordValue;
  }

  /** Every line that is read is made of written commands. */
  lemma {:induction false} LineIsWritten(s: Str, st: PState) returns (forms: seq<Form>)
    requires st.pending.None? && RunFrom(s, st).Ok? && RunFrom(s, st).value.pending.None?
    ensures forms != [] && FormsOk(forms) && LineText(forms) == s
    decreases |s|
  {
    hide Token, ItemOk, ItemText, ItemsOk, ItemsText, FormsOk, LineText, SkipWhite, RunFrom, Blank;
    var gap := GapIsWritten(s);
    var s' := SkipWhite(s);
    SkipAgain(s, st);
    if s' == [] {
      forms := WrittenEmpty(gap);
    } else if s'[0] == PIPE {
      assert s' == [PIPE] + s'[1..];
      PipeToken(s'[1..], st);
      var more := LineIsWritten(s'[1..], PState(st.done + [Command(st.argv, st.redirs)], [], [], None));
      forms := WrittenBar(gap, more);
      assert s == gap + [124] + s'[1..];
    } else {
      SkipStarts(s);
      var item, rest, st' := ItemIsWritten(s', st);
      var more := LineIsWritten(rest, st');
      forms := [Form([Spaced(gap, item)] + more[0].items, more[0].end)] + more[1..];
      WrittenFirst(gap, item, more, rest, forms);
      assert s == gap + ItemText(item) + rest;
    }
  }

  lemma SkipStarts(s: Str)
    ensures |SkipWhite(s)| <= |s| && (SkipWhite(s) != [] ==> !White(SkipWhite(s)[0]))
  {
  }

  lemma WrittenEmpty(gap: Str) returns (forms: seq<Form>)
    requires Blank(gap)
    ensures forms != [] && FormsOk(forms) && LineText(forms) == gap
  {
    forms := [Form([], gap)];
  }

  lemma WrittenBar(gap: Str, more: seq<Form>) returns (forms: seq<Form>)
    requires Blank(gap) && more != [] && FormsOk(more)
    ensures forms != [] && FormsOk(forms) && LineText(forms) == gap + [124] + LineText(more)
  {
    forms := [Form([], gap)] + more;
    assert forms[1..] == more;
    forall i | 0 <= i < |forms| ensures ItemsOk(forms[i].items, forms[i].end) {
      if i > 0 { assert forms[i] == more[i - 1]; }
    }
  }

  lemma SkipAgain(s: Str, st: PState)
    ensures RunFrom(SkipWhite(s), st) == RunFrom(s, st)
  {
    assert SkipWhite(SkipWhite(s)) == SkipWhite(s);
    hide Token, SkipWhite;
  }

  lemma {:induction false} WrittenFirst(gap: Str, item: Item, more: seq<Form>, rest: Str, forms: seq<Form>)
    requires Blank(gap) && FormsOk(more) && LineText(more) == rest && ItemOk(item, rest)
    requires forms == [Form([Spaced(gap, item)] + more[0].items, more[0].end)] + more[1..]
    ensures FormsOk(forms) && LineText(forms) == gap + ItemText(item) + rest
  {
    hide ItemText, ItemOk;
    var Form(items, end) := more[0];
    var first := ItemsText(items, end);
    var tail := if |more| == 1 then [] else [124] + LineText(more[1..]);
    assert rest == first + tail && forms[1..] == more[1..];
    assert forms[0].items[1..] == items;
    ItemWithoutBar(item, first, tail);
    forall i | 0 <= i < |forms| ensures ItemsOk(forms[i].items, forms[i].end) {
      if i > 0 { assert forms[i] == more[i]; }
    }
    assert ItemsText(forms[0].items, end) == gap + ItemText(item) + first;
    assert gap + ItemText(item) + first + tail == gap + ItemText(item) + rest;
  }

  lemma ItemWithoutBar(item: Item, first: Str, tail: Str)
    requires ItemOk(item, first + tail) && (tail != [] ==> tail[0] == 124)
    ensures ItemOk(item, first)
  {
    hide WordOk, WordText, WordValue;
    if first != [] { assert (first + tail)[0] == first[0] && (first + tail)[..1] == first[..1]; }
  }

  predicate Writes(forms: seq<Form>, line: Str, p: Pipeline)
  {
    FormsOk(forms) && Complete(forms) && LineText(forms) == line && Meaning(forms) == p
  }

  /** A line is parsed into a pipeline exactly if it is a way to write that pipeline. */
  lemma ParseMeaning(line: Str, p: Pipeline)
    ensures Parse(line) == Ok(p) <==> exists forms :: Writes(forms, line, p)
  {
    hide FormsOk, Complete, LineText, Meaning, RunFrom;
    if Parse(line) == Ok(p) {
      var forms := LineIsWritten(line, START);
      FormsRead(forms);
      assert Writes(forms, line, p);
    }
    if forms :| Writes(forms, line, p) { FormsRead(forms); }
  }

  // --- printing and parsing back ------------------------------------------------------------------------

  /** Every character in quotes of its own, double ones unless it is a double quote itself. */
  function Quoted(word: Str): seq<Piece>
  {
    if word == [] then []
    else
      [if word[0] == 34 then InSingle(word[..1]) else InDouble(word[..1])] + Quoted(word[1..])
  }

  function Digits(n: nat): (r: Str)
    ensures r != [] && Numeral(r)
  {
    if n < 10 then [48 + n] else Digits(n / 10) + [48 + n % 10]
  }

  function PrintRedir(r: Redir): Item
  {
    match r
    case File(kind, fd, target) => Redirect(Digits(fd), kind, [], Quoted(target))
    case Dup2(src, dst) => Duplicate(Digits(src), Digits(dst))
  }

  /** Words first, redirections behind them, each behind a blank. */
  function PrintItems(words: seq<Str>, redirs: seq<Redir>): seq<Spaced>
  {
    if words != [] then [Spaced([32], Arg(Quoted(words[0])))] + PrintItems(words[1..], redirs)
    else if redirs != [] then [Spaced([32], PrintRedir(redirs[0]))] + PrintItems([], redirs[1..])
    else []
  }

  function PrintForms(p: Pipeline): seq<Form>
  {
    if p == [] then [] else [Form(PrintItems(p[0].argv, p[0].redirs), [])] + PrintForms(p[1..])
  }

  function Print(p: Pipeline): Str { if p == [] then [] else LineText(PrintForms(p)) }

  predicate Printable(c: Command)
  {
    && c.argv != [] && (forall i :: 0 <= i < |c.argv| ==> c.argv[i] != [])
    && (forall i :: 0 <= i < |c.redirs| && c.redirs[i].File? ==> c.redirs[i].target != [])
  }

  lemma {:induction false} QuotedIs(word: Str)
    ensures PiecesOk(Quoted(word))
    ensures WordValue(Quoted(word)) == word
    ensures word != [] ==> WordText(Quoted(word)) != [] && WordText(Quoted(word))[0] in {34, 39}
  {
    if word != [] {
      QuotedIs(word[1..]);
      assert Quoted(word)[1..] == Quoted(word[1..]);
      assert word == word[..1] + word[1..];
    }
  }

  lemma {:induction false} DigitsValue(n: nat)
    ensures Value(Digits(n)) == n
  {
    if n >= 10 {
      DigitsValue(n / 10);
      assert Digits(n)[..|Digits(n)| - 1] == Digits(n / 10);
    }
  }

  lemma QuotedOk(word: Str)
    requires word != []
    ensures WordOk(Quoted(word)) && !Numeral(WordText(Quoted(word))) && WordText(Quoted(word))[0] != 38
  {
    QuotedIs(word);
    var t := WordText(Quoted(word));
    assert t[..1][0] == t[0];
    hide WordText, WordValue, Quoted;
  }

  lemma {:induction false} PrintItemsIs(words: seq<Str>, redirs: seq<Redir>)
    requires forall i :: 0 <= i < |words| ==> words[i] != []
    requires forall i :: 0 <= i < |redirs| && redirs[i].File? ==> redirs[i].target != []
    ensures var items := PrintItems(words, redirs);
      && ItemsOk(items, []) && Args(items) == words && Redirs(items) == redirs
      && (items != [] ==> ItemsText(items, [])[0] == 32)
    decreases |words| + |redirs|
  {
    hide Quoted, Digits, WordOk, WordText, WordValue, Value;
    if words != [] {
      PrintItemsIs(words[1..], redirs);
      QuotedOk(words[0]);
      QuotedIs(words[0]);
      assert PrintItems(words, redirs)[1..] == PrintItems(words[1..], redirs);
    } else if redirs != [] {
      PrintItemsIs([], redirs[1..]);
      PrintRedirIs(redirs[0], ItemsText(PrintItems([], redirs[1..]), []));
      assert PrintItems([], redirs)[1..] == PrintItems([], redirs[1..]);
    }
  }

  lemma PrintRedirIs(r: Redir, rest: Str)
    requires (r.File? ==> r.target != []) && (rest != [] ==> rest[0] == 32)
    ensures ItemOk(PrintRedir(r), rest)
    ensures match PrintRedir(r)
      case Redirect(fd, kind, _, word) => fd != [] && r == File(kind, Value(fd), WordValue(word))
      case Duplicate(fd, dst) => fd != [] && r == Dup2(Value(fd), Value(dst))
      case Arg(_) => false
  {
    hide Quoted, Digits, WordOk, WordText, WordValue, Value;
    match r {
      case File(_, fd, target) =>
        QuotedOk(target);
        QuotedIs(target);
        DigitsValue(fd);
      case Dup2(src, dst) =>
        DigitsValue(src);
        DigitsValue(dst);
        assert rest != [] ==> rest[..1][0] == 32;
    }
  }

  lemma {:induction false} PrintFormsIs(p: Pipeline)
    requires forall i :: 0 <= i < |p| ==> Printable(p[i])
    ensures var forms := PrintForms(p);
      && |forms| == |p| && Meaning(forms) == p
      && forall i :: 0 <= i < |forms| ==> ItemsOk(forms[i].items, forms[i].end) && Args(forms[i].items) != []
  {
    hide ItemsOk, Args, Redirs, PrintItems;
    if p != [] {
      PrintFormsIs(p[1..]);
      assert Printable(p[0]);
      PrintItemsIs(p[0].argv, p[0].redirs);
      NothingSaid(PrintItems(p[0].argv, p[0].redirs));
      assert PrintForms(p)[1..] == PrintForms(p[1..]);
    }
  }

  /**
   Every pipeline of commands with non-empty words has a line that is parsed back into exactly that pipeline,
   with its words and redirections in order.
   */
  lemma PrintRoundTrip(p: Pipeline)
    requires forall i :: 0 <= i < |p| ==> Printable(p[i])
    ensures Parse(Print(p)) == Ok(p)
  {
    hide ItemsOk, Args, Redirs, PrintForms;
    if p == [] {
      RunEmpty(START);
    } else {
      PrintFormsIs(p);
      FormsRead(PrintForms(p));
      hide Meaning, LineText, Parse;
    }
  }

  lemma {:induction false} ItemsPrintable(items: seq<Spaced>, end: Str)
    requires ItemsOk(items, end)
    ensures forall i :: 0 <= i < |Args(items)| ==> Args(items)[i] != []
    ensures forall i :: 0 <= i < |Redirs(items)| && Redirs(items)[i].File? ==> Redirs(items)[i].target != []
  {
    hide WordText, WordValue, Value, Numeral, Blank;
    if items != [] {
      ItemsPrintable(items[1..], end);
    }
  }

  lemma {:induction false} MeaningPrintable(forms: seq<Form>)
    requires FormsOk(forms) && Complete(forms)
    ensures forall i :: 0 <= i < |Meaning(forms)| ==> Printable(Meaning(forms)[i])
  {
    hide ItemsOk, Args, Redirs;
    ItemsPrintable(forms[0].items, forms[0].end);
    if |forms| > 1 {
      CompleteSteps(forms);
      MeaningPrintable(forms[1..]);
    } else {
      assert Meaning(forms[1..]) == [];
    }
  }

  /** The pipelines that some line is parsed into are exactly the printable ones. */
  lemma ParsedIff(p: Pipeline)
    ensures (exists line :: Parse(line) == Ok(p)) <==> forall i :: 0 <= i < |p| ==> Printable(p[i])
  {
    hide Parse, Printable, Print;
    if line :| Parse(line) == Ok(p) {
      ParseMeaning(line, p);
      var forms :| Writes(forms, line, p);
      MeaningPrintable(forms);
    }
    if forall i :: 0 <= i < |p| ==> Printable(p[i]) { PrintRoundTrip(p); }
  }

  /** Printing what was parsed and parsing it again gives the same. */
  lemma ParseAgain(line: Str)
    requires Parse(line).Ok?
    ensures Parse(Print(Parse(line).value)) == Parse(line)
  {
    hide Parse, Printable, Print;
    ParsedIff(Parse(line).value);
    PrintRoundTrip(Parse(line).value);
  }

  lemma RunEmpty(st: PState)
    ensures RunFrom([], st) == Ok(st)
  {
  }

  lemma PipeToken(rest: Str, st: PState)
    requires st.pending.None?
    ensures RunFrom([PIPE] + rest, st) ==
      if st.argv == [] then Err(EmptyCommand) else RunFrom(rest,
        PState(st.done + [Command(st.argv, st.redirs)], [], [], None))
  {
    var s := [PIPE] + rest;
    assert SkipWhite(s) == s && s[1..] == rest;
  }

  // --- parsing around a pipe ----------------------------------------------------------------------------

  lemma {:induction false} SkipConcat(s: Str, t: Str)
    requires t != [] && !White(t[0])
    ensures SkipWhite(s + t) == SkipWhite(s) + t
  {
    if s == [] {
      assert s + t == t;
    } else {
      SkipConcat(s[1..], t);
      assert (s + t)[1..] == s[1..] + t;
    }
  }

  lemma {:induction false} WordConcat(s: Str, quote: Quote, out: Str, t: Str)
    requires WordFrom(s, quote, out).Ok? && t != [] && t[0] == PIPE
    ensures var (word, rest) := WordFrom(s, quote, out).value; WordFrom(s + t, quote, out) == Ok((word, rest + t))
  {
    if s == [] {
      assert s + t == t;
    } else {
      assert (s + t)[1..] == s[1..] + t && (s + t)[0] == s[0];
      if quote.Bare? {
        if !Breaks(s[0]) {
          if s[0] == SQUOTE { WordConcat(s[1..], Single, out, t); }
          else if s[0] == DQUOTE { WordConcat(s[1..], Double, out, t); }
          else { WordConcat(s[1..], Bare, out + [s[0]], t); }
        }
      } else if s[0] == (if quote.Single? then SQUOTE else DQUOTE) {
        WordConcat(s[1..], Bare, out, t);
      } else {
        WordConcat(s[1..], quote, out + [s[0]], t);
      }
    }
  }

  lemma DigitRunConcat(s: Str, t: Str)
    requires t != [] && t[0] == PIPE
    ensures DigitRun(s + t) == DigitRun(s)
  {
    var n := DigitRun(s);
    DigitRunIs(s[..n], s[n..] + t);
    assert s + t == s[..n] + (s[n..] + t);
  }

  lemma FdsConcat(s: Str, t: Str)
    requires t != [] && t[0] == PIPE
    ensures LeadingFd(s + t) == (LeadingFd(s).0, LeadingFd(s).1 + t)
    ensures FdToken(s).Some? ==> FdToken(s + t) == Some((FdToken(s).value.0, FdToken(s).value.1 + t))
  {
    DigitRunConcat(s, t);
    var n := DigitRun(s);
    assert (s + t)[..n] == s[..n] && (s + t)[n..] == s[n..] + t;
    assert n < |s| ==> (s + t)[n] == s[n];
    hide DigitRun, Decimal;
  }

  /** What follows a token from a pipe on does not change the token. */
  lemma TokenConcat(s: Str, st: PState, t: Str)
    requires s != [] && t != [] && t[0] == PIPE && Token(s, st).Ok?
    ensures Token(s + t, st) == Ok((Token(s, st).value.0 + t, Token(s, st).value.1))
  {
    hide WordFrom, LeadingFd, FdToken, DigitRun;
    assert (s + t)[0] == s[0] && (s + t)[1..] == s[1..] + t;
    if WordFrom(s, Bare, []).Ok? { WordConcat(s, Bare, [], t); }
    FdsConcat(s, t);
    var rest := LeadingFd(s).1;
    if |rest| > 1 {
      FdsConcat(rest[2..], t);
      assert (rest + t)[2..] == rest[2..] + t && (rest + t)[1] == rest[1];
    }
    if |rest| > 0 {
      assert (rest + t)[1..] == rest[1..] + t && (rest + t)[0] == rest[0];
    }
  }

  lemma {:induction false} RunConcat(s: Str, st: PState, t: Str)
    requires RunFrom(s, st).Ok? && t != [] && t[0] == PIPE
    ensures RunFrom(s + t, st) == RunFrom(t, RunFrom(s, st).value)
    decreases |s|
  {
    hide Token, SkipWhite;
    SkipConcat(s, t);
    var s' := SkipWhite(s);
    if s' == [] {
      assert [] + t == t;
      PipeStarts(t);
    } else {
      TokenConcat(s', st, t);
      RunConcat(Token(s', st).value.0, Token(s', st).value.1, t);
    }
  }

  lemma PipeStarts(t: Str)
    requires t != [] && t[0] == PIPE
    ensures SkipWhite(t) == t
  {
  }

  function Behind(pre: Pipeline, r: Parsed<PState>): Parsed<PState>
  {
    match r case Err(e) => Err(e) case Ok(st) => Ok(st.(done := pre + st.done))
  }

  /** The commands already read only stand in front of what is read next. */
  lemma {:induction false} RunBehind(s: Str, st: PState, pre: Pipeline)
    ensures RunFrom(s, st.(done := pre + st.done)) == Behind(pre, RunFrom(s, st))
    decreases |s|
  {
    hide SkipWhite, WordFrom, LeadingFd, FdToken;
    var s' := SkipWhite(s);
    if s' != [] {
      var st0 := st.(done := pre + st.done);
      TokenBehind(s', st, pre);
      hide Token;
      if Token(s', st).Ok? {
        RunBehind(Token(s', st).value.0, Token(s', st).value.1, pre);
      }
    }
  }

  lemma TokenBehind(s: Str, st: PState, pre: Pipeline)
    requires s != []
    ensures Token(s, st.(done := pre + st.done)) ==
      match Token(s, st) case Err(e) => Err(e) case Ok((rest, st')) => Ok((rest, st'.(done := pre + st'.done)))
  {
    hide WordFrom, LeadingFd, FdToken;
    var c := [Command(st.argv, st.redirs)];
    assert (pre + st.done) + c == pre + (st.done + c);
  }

  /** The last character that is not white space. */
  function LastSolid(s: Str): Option<byte>
  {
    if s == [] then None
    else
      var t := LastSolid(s[1..]);
      if t.Some? then t else if White(s[0]) then None else Some(s[0])
  }

  /** A line is parsed as its halves are, around a pipe behind a half that neither is blank nor ends in a pipe. */
  lemma PipeDistributes(a: Str, b: Str)
    requires Parse(a).Ok?
    ensures Parse(a + [PIPE] + b) ==
      if LastSolid(a) == None || LastSolid(a) == Some(PIPE) then Err(EmptyCommand)
      else match Parse(b) case Err(e) => Err(e) case Ok(p) => Ok(Parse(a).value + p)
  {
    hide RunFrom, LastSolid;
    var t := [PIPE] + b;
    assert a + [PIPE] + b == a + t;
    RunConcat(a, START, t);
    var st := RunFrom(a, START).value;
    PipeToken(b, st);
    OpenIffSolid(a, START);
    if st.argv != [] {
      var pre := st.done + [Command(st.argv, st.redirs)];
      assert START.(done := pre + START.done) == PState(pre, [], [], None);
      RunBehind(b, START, pre);
      if RunFrom(b, START).Ok? {
        var end := RunFrom(b, START).value;
        assert (pre + end.done) + [Command(end.argv, end.redirs)] == pre + (end.done + [Command(end.argv, end.redirs)]);
      }
    }
  }

  /** How the text read so far ended: something was read and it was no pipe, or nothing was read. */
  predicate EndsSolid(s: Str, st: PState, st': PState)
  {
    match LastSolid(s)
    case None => st' == st
    case Some(c) => c == PIPE <==> st'.argv == [] && st'.redirs == []
  }

  lemma {:induction false} OpenIffSolid(s: Str, st: PState)
    requires RunFrom(s, st).Ok? && RunFrom(s, st).value.pending.None?
    ensures EndsSolid(s, st, RunFrom(s, st).value)
    decreases |s|
  {
    hide Token, WordFrom;
    var s' := SkipWhite(s);
    SkipSolid(s);
    if s' != [] {
      var (rest, st') := Token(s', st).value;
      OpenIffSolid(rest, st');
      TokenSolid(s', st, rest, st');
    }
  }

  lemma {:induction false} SkipSolid(s: Str)
    ensures LastSolid(SkipWhite(s)) == LastSolid(s)
    ensures SkipWhite(s) == [] <==> LastSolid(s) == None
  {
    if s != [] {
      SkipSolid(s[1..]);
    }
  }

  /** The last solid character is found in any suffix that has one, or else right before it. */
  lemma {:induction false} SolidAt(s: Str, k: nat)
    requires k <= |s|
    ensures LastSolid(s[k..]).Some? ==> LastSolid(s) == LastSolid(s[k..])
    ensures LastSolid(s[k..]).None? && k > 0 && !White(s[k - 1]) ==> LastSolid(s) == Some(s[k - 1])
  {
    if k > 0 {
      SolidAt(s[1..], k - 1);
      assert s[1..][k - 1..] == s[k..];
      assert k > 1 ==> s[1..][k - 2] == s[k - 1];
    }
  }

  /** A word never ends in an unquoted pipe. */
  lemma {:induction false} WordSolid(s: Str, quote: Quote, out: Str)
    requires WordFrom(s, quote, out).Ok?
    ensures var rest := WordFrom(s, quote, out).value.1;
      && (LastSolid(rest).Some? ==> LastSolid(s) == LastSolid(rest))
      && (LastSolid(rest).None? ==> LastSolid(s) != Some(PIPE) && (!quote.Bare? ==> LastSolid(s).Some?))
  {
    if s != [] {
      if quote.Bare? {
        if !Breaks(s[0]) {
          if s[0] == SQUOTE { WordSolid(s[1..], Single, out); }
          else if s[0] == DQUOTE { WordSolid(s[1..], Double, out); }
          else { WordSolid(s[1..], Bare, out + [s[0]]); }
        }
      } else if s[0] == (if quote.Single? then SQUOTE else DQUOTE) {
        WordSolid(s[1..], Bare, out);
      } else {
        WordSolid(s[1..], quote, out + [s[0]]);
      }
    }
  }

  lemma TokenSolid(s: Str, st: PState, rest: Str, st': PState)
    requires s != [] && !White(s[0]) && Token(s, st) == Ok((rest, st'))
    ensures LastSolid(rest).Some? ==> LastSolid(s) == LastSolid(rest)
    ensures LastSolid(rest).None? ==> LastSolid(s).Some?
    ensures LastSolid(rest).None? && st'.pending.None? ==>
      (LastSolid(s) == Some(PIPE) <==> st'.argv == [] && st'.redirs == [])
  {
    hide WordFrom, LeadingFd, FdToken, LastSolid;
    SolidStart(s);
    if WordFrom(s, Bare, []).Ok? { WordSolid(s, Bare, []); }
    SolidAt(s, 1);
    var op := LeadingFd(s).1;
    if |op| > 0 && (op[0] == LESS || op[0] == GREATER) {
      OpSolid(s, op);
    }
  }

  lemma SolidStart(s: Str)
    requires s != [] && !White(s[0])
    ensures LastSolid(s).Some?
  {
  }

  /** What follows a redirection operator, or a descriptor behind it, is a suffix of the text. */
  lemma OpSolid(s: Str, op: Str)
    requires op == LeadingFd(s).1 && |op| > 0
    ensures LastSolid(op[1..]).Some? ==> LastSolid(s) == LastSolid(op[1..])
    ensures |op| > 1 && LastSolid(op[2..]).Some? ==> LastSolid(s) == LastSolid(op[2..])
    ensures |op| > 1 && FdToken(op[2..]).Some? ==>
      var rest := FdToken(op[2..]).value.1;
      && (LastSolid(rest).Some? ==> LastSolid(s) == LastSolid(rest))
      && (LastSolid(rest).None? ==> LastSolid(s).Some? && LastSolid(s) != Some(PIPE))
  {
    hide LastSolid, LeadingFd, FdToken, White, DigitRun;
    LeadingSuffix(s);
    var n := |s| - |op|;
    assert op[1..] == s[n + 1..];
    SolidAt(s, n + 1);
    if |op| > 1 {
      var t := op[2..];
      assert t == s[n + 2..];
      SolidAt(s, n + 2);
      if FdToken(t).Some? {
        FdSuffix(t);
        var m := |t| - |FdToken(t).value.1|;
        assert t[m..] == s[n + 2 + m..] && t[m - 1] == s[n + 2 + m - 1];
        SolidAt(s, n + 2 + m);
      }
    }
  }

  lemma LeadingSuffix(s: Str)
    ensures LeadingFd(s).1 == s[|s| - |LeadingFd(s).1|..]
  {
  }

  lemma FdSuffix(t: Str)
    requires FdToken(t).Some?
    ensures var rest := FdToken(t).value.1;
      && |rest| < |t| && rest == t[|t| - |rest|..]
      && !White(t[|t| - |rest| - 1]) && t[|t| - |rest| - 1] != PIPE
  {
    assert Digit(t[DigitRun(t) - 1]);
  }
}
