/** Chat frames: fields separated by US, ended by RS, received in a buffer with whatever lies behind. */
module ChatFrames {
  import opened Base
  import opened Text
  import opened P2p

  const US: byte := 0x1F
  const RS: byte := 0x1E

  const JOIN: Str := [74, 79, 73, 78]
  const MSG: Str := [77, 83, 71]
  const LEAVE: Str := [76, 69, 65, 86, 69]

  datatype Message = Enter(name: Str, info: Str) | Say(name: Str, text: Str) | Exit(name: Str)

  function Fields(m: Message): (r: seq<Str>)
    ensures r != []
  {
    match m
    case Enter(name, info) => [JOIN, name, info]
    case Say(name, text) => [MSG, name, text]
    case Exit(name) => [LEAVE, name]
  }

  /** The frame of a message, if it fits into the buffer. */
  function Encode(m: Message): Option<Frame>
  {
    var f := Join(Fields(m), US) + [RS];
    if |f| <= MAX_FRAME_LEN then Some(f) else None
  }

  /** The bytes of a frame; a message fits exactly if they are no more than 512. */
  lemma FrameBytes(m: Message)
    ensures match m
      case Enter(name, info) =>
        Encode(m) == if |name| + |info| + 7 <= 512
          then Some([74, 79, 73, 78, 31] + name + [31] + info + [30]) else None
      case Say(name, text) =>
        Encode(m) == if |name| + |text| + 6 <= 512
          then Some([77, 83, 71, 31] + name + [31] + text + [30]) else None
      case Exit(name) =>
        Encode(m) == if |name| + 7 <= 512 then Some([76, 69, 65, 86, 69, 31] + name + [30]) else None
  {
    match m
    case Enter(name, info) => JoinThree(JOIN, name, info);
      assert JOIN + [US] + (name + [US] + info) + [RS] == [74, 79, 73, 78, 31] + name + [31] + info + [30];
    case Say(name, text) => JoinThree(MSG, name, text);
      assert MSG + [US] + (name + [US] + text) + [RS] == [77, 83, 71, 31] + name + [31] + text + [30];
    case Exit(name) =>
      JoinTwo(LEAVE, name);
      assert LEAVE + [US] + name + [RS] == [76, 69, 65, 86, 69, 31] + name + [30];
  }

  /** What a receiver prints; of a JOIN it drops the info. */
  datatype Line = Joined(name: Str) | Said(name: Str, text: Str) | Left(name: Str)

  function Shown(m: Message): Line
  {
    match m
    case Enter(name, _) => Joined(name)
    case Say(name, text) => Said(name, text)
    case Exit(name) => Left(name)
  }

  /** What a receiver prints for a buffer, and whether it accepts the frame. */
  datatype Handled = Handled(line: Option<Line>, accepted: bool)

  function Handle(buf: seq<byte>): Handled
  {
    var records := Split(buf, RS);
    if |records| < 2 then Handled(None, false)
    else HandleUnits(Split(records[0], US))
  }

  /** The fields of the record; further ones spoil the frame after it has been printed. */
  function HandleUnits(units: seq<Str>): Handled
    requires units != []
  {
    if units[0] == JOIN then
      if |units| < 3 then Handled(None, false) else Handled(Some(Joined(units[1])), |units| == 3)
    else if units[0] == MSG then
      if |units| < 3 then Handled(None, false) else Handled(Some(Said(units[1], units[2])), |units| == 3)
    else if units[0] == LEAVE then
      if |units| < 2 then Handled(None, false) else Handled(Some(Left(units[1])), |units| == 2)
    else Handled(None, |units| == 1)
  }

  predicate Clean(s: Str) { US !in s && RS !in s }

  /** No printed field contains a separator; the info of a JOIN has no unit separator before a record separator. */
  predicate Legible(m: Message)
  {
    match m
    case Enter(name, info) => Clean(name) && US !in Split(info, RS)[0]
    case Say(name, text) => Clean(name) && Clean(text)
    case Exit(name) => Clean(name)
  }

  /** A frame in a buffer is printed as what was sent, whatever bytes follow it, exactly if it is legible. */
  lemma FrameRoundTrip(m: Message, buf: seq<byte>)
    requires Encode(m).Some? && StartsWith(buf, Encode(m).value)
    ensures Handle(buf) == Handled(Some(Shown(m)), true) <==> Legible(m)
  {
    hide Split;
    var record := Join(Fields(m), US);
    var tail := buf[|record| + 1..];
    assert buf == record + [RS] + tail;
    SplitConcat(record, RS, tail);
    var units := Split(Split(buf, RS)[0], US);
    UnitsClean(Split(buf, RS)[0], buf);
    match m
    case Enter(name, info) =>
      JoinThree(JOIN, name, info);
      if Clean(name) { JoinUnits(name, info, tail); }
      SplitSingle(Split(info, RS)[0], US);
    case _ =>
      if Legible(m) {
        FieldsClean(m);
        JoinClean(Fields(m), RS);
        hide Join;
        SplitNone(record, RS);
        SplitJoin(Fields(m), US);
        assert units == Fields(m);
      }
  }

  /**
   Any buffer: without a record separator (30) it is refused; else the fields in front of the first one must be as
   many as their kind has, and with fewer nothing is printed. Of a kind that is not known only a record without
   further fields is accepted.
   */
  lemma AnyFrame(units: seq<Str>, tail: seq<byte>, noise: seq<byte>)
    requires units != [] && AllClean(units) && 30 !in noise
    ensures Handle(noise) == Handled(None, false)
    ensures var h := Handle(Join(units, 31) + [30] + tail);
      var kind := units[0];
      var need := if kind == [74, 79, 73, 78] || kind == [77, 83, 71] then 3
        else if kind == [76, 69, 65, 86, 69] then 2 else 1;
      && (h.accepted <==> |units| == need)
      && (h.line.Some? <==> need > 1 && |units| >= need)
      && (h.line.Some? ==>
            if need == 2 then h.line.value == Left(units[1])
            else if kind == [77, 83, 71] then h.line.value == Said(units[1], units[2])
            else h.line.value == Joined(units[1]))
  {
    hide Split, Join;
    SplitNone(noise, RS);
    var record := Join(units, US);
    JoinClean(units, RS);
    SplitNone(record, RS);
    SplitConcat(record, RS, tail);
    SplitJoin(units, US);
  }

  lemma JoinTwo(a: Str, b: Str)
    ensures Join([a, b], US) == a + [US] + b
  {
    assert [a, b][1..] == [b];
  }

  lemma JoinThree(a: Str, b: Str, c: Str)
    ensures Join([a, b, c], US) == a + [US] + (b + [US] + c)
  {
    var s, t := [a, b, c], [b, c];
    assert s[1..] == t && t[1..] == [c];
    assert Join(t, US) == b + [US] + c;
  }

  /** The fields that a receiver finds in a record contain no separator of either kind. */
  lemma UnitsClean(record: Str, buf: seq<byte>)
    requires record == Split(buf, RS)[0]
    ensures AllClean(Split(record, US))
  {
    hide Split;
    SplitClean(buf, RS);
    SplitClean(record, US);
    SplitWithin(record, US, RS);
  }

  predicate AllClean(units: seq<Str>) { forall i :: 0 <= i < |units| ==> Clean(units[i]) }

  /** The fields of a JOIN with a clean name: the info counts up to its first record separator. */
  lemma JoinUnits(name: Str, info: Str, tail: seq<byte>)
    requires Clean(name)
    ensures var buf := JOIN + [US] + (name + [US] + info) + [RS] + tail;
      Split(Split(buf, RS)[0], US) == [JOIN, name] + Split(Split(info, RS)[0], US)
  {
    hide Split;
    var pre, x := JOIN + [US] + name + [US], Split(info, RS)[0];
    var buf := JOIN + [US] + (name + [US] + info) + [RS] + tail;
    assert buf == pre + (info + [RS] + tail);
    SplitPrefix(pre, info + [RS] + tail, RS);
    SplitConcat(info, RS, tail);
    assert pre + x == JOIN + [US] + (name + [US] + x);
    SplitConcat(JOIN, US, name + [US] + x);
    SplitConcat(name, US, x);
    SplitNone(JOIN, US);
    SplitNone(name, US);
    assert [JOIN] + ([name] + Split(x, US)) == [JOIN, name] + Split(x, US);
  }

  lemma {:induction false} SplitPrefix(a: Str, s: Str, sep: byte)
    requires sep !in a
    ensures Split(a + s, sep)[0] == a + Split(s, sep)[0]
  {
    if a == [] {
      assert a + s == s;
    } else {
      SplitPrefix(a[1..], s, sep);
      assert (a + s)[1..] == a[1..] + s;
    }
  }

  lemma {:induction false} SplitSingle(s: Str, sep: byte)
    ensures |Split(s, sep)| == 1 <==> sep !in s
  {
    if s != [] {
      SplitSingle(s[1..], sep);
    }
  }

  // --- messages over the channel ------------------------------------------------------------------------

  predicate Fit(messages: seq<Message>) { forall i :: 0 <= i < |messages| ==> Encode(messages[i]).Some? }

  function Frames(messages: seq<Message>): seq<Frame>
    requires Fit(messages)
  {
    seq(|messages|, i requires 0 <= i < |messages| => Encode(messages[i]).value)
  }

  /** What a process prints is what was sent to it, message by message, where that is legible. */
  predicate PrintsAs(p: Peer, messages: seq<Message>)
  {
    && |p.got| <= |messages|
    && forall k :: 0 <= k < |p.got| ==>
      (Handle(p.got[k]) == Handled(Some(Shown(messages[k])), true) <==> Legible(messages[k]))
  }

  /** In every run, whatever both sides plan to say, each prints what the other says, in order. */
  lemma MessagesArrive(data: seq<byte>, host: seq<Message>, client: seq<Message>, schedule: seq<Thread>)
    requires |data| == MAX_FRAME_LEN && Fit(host) && Fit(client)
    ensures Inv(Start(data, Frames(host), Frames(client)))
    ensures var s := RunAll(Start(data, Frames(host), Frames(client)), schedule);
      PrintsAs(s.client, host) && PrintsAs(s.host, client)
  {
    hide Inv, RunAll, Frames, PrintsAs;
    var s0 := Start(data, Frames(host), Frames(client));
    StartInv(data, Frames(host), Frames(client));
    assert Plan(s0.host) == Frames(host) && Plan(s0.client) == Frames(client);
    RunSafe(s0, schedule);
    var s := RunAll(s0, schedule);
    GotIsPrinted(s.client, host);
    GotIsPrinted(s.host, client);
  }

  lemma GotIsPrinted(p: Peer, messages: seq<Message>)
    requires Fit(messages) && GotPrefix(p, Frames(messages))
    ensures PrintsAs(p, messages)
  {
    hide Encode, Handle, Legible, StartsWith;
    forall k | 0 <= k < |p.got|
      ensures Handle(p.got[k]) == Handled(Some(Shown(messages[k])), true) <==> Legible(messages[k])
    {
      FrameRoundTrip(messages[k], p.got[k]);
    }
  }

  lemma FieldsClean(m: Message)
    requires Legible(m) && !m.Enter?
    ensures forall i :: 0 <= i < |Fields(m)| ==> US !in Fields(m)[i] && RS !in Fields(m)[i]
  {
  }

  /** Joined text contains only the separator and the characters of its parts. */
  lemma {:induction false} JoinClean(parts: seq<Str>, c: byte)
    requires parts != [] && c != US && forall i :: 0 <= i < |parts| ==> c !in parts[i]
    ensures c !in Join(parts, US)
  {
    if |parts| > 1 {
      JoinClean(parts[1..], c);
    }
  }

  lemma {:induction false} SplitWithin(s: Str, sep: byte, c: byte)
    requires c !in s
    ensures forall i :: 0 <= i < |Split(s, sep)| ==> c !in Split(s, sep)[i]
  {
    if s != [] {
      SplitWithin(s[1..], sep, c);
    }
  }
}
