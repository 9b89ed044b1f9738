/** The Telnet line reader: IAC commands are removed, doubled 255 bytes restored (RFC 854, RFC 855). */
module Telnet {
  import opened Text

  const IAC := 255 as char
  const WILL := 251 as char
  const WONT := 252 as char
  const DO := 253 as char
  const DONT := 254 as char
  const SB := 250 as char
  const SE := 240 as char
  const NUL := 0 as char

  datatype Outcome = Line(text: Str) | EOF | TooLong

  predicate Negotiates(c: char) {
    c == WILL || c == WONT || c == DO || c == DONT
  }

  function TrimCR(s: Str): (t: Str)
    ensures |s| - 1 <= |t| <= |s|
  {
    if s != [] && s[|s| - 1] == '\r' then s[..|s| - 1] else s
  }

  /** Bytes after the IAC SE that ends a subnegotiation. */
  function SkipSub(s: Str): (r: Option<Str>)
    ensures r.Some? ==> |r.value| < |s|
  {
    if s == [] then None
    else if s[0] != IAC then SkipSub(s[1..])
    else if |s| == 1 then None
    else if s[1] == SE then Some(s[2..])
    else SkipSub(s[2..])
  }

  /** The line read from `s` with `b` already collected, and the bytes left unread. */
  function ReadLine(s: Str, b: Str, max: nat): (Outcome, Str)
    decreases |s|
  {
    if |b| >= max then (TooLong, s)
    else if s == [] then (EOF, [])
    else if s[0] == IAC then
      if |s| == 1 then (EOF, [])
      else if s[1] == IAC then ReadLine(s[2..], b + [IAC], max)
      else if s[1] == SB then
        (match SkipSub(s[2..])
         case None => (EOF, [])
         case Some(rest) => ReadLine(rest, b, max))
      else if Negotiates(s[1]) then
        if |s| == 2 then (EOF, []) else ReadLine(s[3..], b, max)
      else ReadLine(s[2..], b, max)
    else if s[0] == '\n' then (Line(TrimCR(b)), s[1..])
    else ReadLine(s[1..], if s[0] == NUL then b else b + [s[0]], max)
  }

  class Reader {
    const input: Str
    var pos: nat

    constructor (input: Str)
      ensures this.input == input && pos == 0
    {
      this.input, pos := input, 0;
    }

    method ReadByte() returns (x: Option<char>)
      requires pos <= |input|
      modifies this`pos
      ensures old(pos) == |input| ==> x == None && pos == old(pos)
      ensures old(pos) < |input| ==> x == Some(input[old(pos)]) && pos == old(pos) + 1
    {
      if pos == |input| { return None; }
      x := Some(input[pos]);
      pos := pos + 1;
    }

    /** The inner loop of a subnegotiation. */
    method Subnegotiation() returns (ok: bool)
      requires pos <= |input|
      modifies this`pos
      ensures old(pos) <= pos <= |input|
      ensures SkipSub(input[old(pos)..]) == if ok then Some(input[pos..]) else None
      ensures !ok ==> pos == |input|
    {
      while true
        invariant old(pos) <= pos <= |input|
        invariant SkipSub(input[old(pos)..]) == SkipSub(input[pos..])
        decreases |input| - pos
      {
        ghost var at, s := pos, input[pos..];
        var v := ReadByte();
        if v == None { return false; }
        assert s[1..] == input[at + 1..];
        if v.value == IAC {
          v := ReadByte();
          if v == None { return false; }
          assert s[1] == input[at + 1] && s[2..] == input[at + 2..];
          if v.value == SE { return true; }
        }
      }
    }

    method Line(max: nat) returns (r: Outcome)
      requires pos <= |input|
      modifies this`pos
      ensures old(pos) <= pos <= |input|
      ensures (r, input[pos..]) == ReadLine(input[old(pos)..], [], max)
    {
      hide ReadLine, SkipSub, TrimCR;
      var b: Str := [];
      while |b| < max
        invariant old(pos) <= pos <= |input|
        invariant ReadLine(input[old(pos)..], [], max) == ReadLine(input[pos..], b, max)
        decreases |input| - pos
      {
        ReadAt(input, pos, b, max);
        var x := ReadByte();
        if x == None { return EOF; }
        if x.value == IAC {
          var cmd := ReadByte();
          if cmd == None { return EOF; }
          if cmd.value == IAC {
            b := b + [IAC];
            continue;
          }
          if cmd.value == SB {
            var ok := Subnegotiation();
            if !ok { return EOF; }
          } else if Negotiates(cmd.value) {
            var option := ReadByte();
            if option == None { return EOF; }
          }
          continue;
        }
        if x.value == '\n' { return Outcome.Line(TrimCR(b)); }
        if x.value != NUL { b := b + [x.value]; }
      }
      ReadFull(input[pos..], b, max);
      return TooLong;
    }
  }

  /** The reader's cases, over an index into the input. */
  lemma ReadAt(input: Str, i: nat, b: Str, max: nat)
    requires i <= |input| && |b| < max
    ensures input[|input|..] == []
    ensures i == |input| ==> ReadLine(input[i..], b, max) == (EOF, [])
    ensures i < |input| && input[i] == IAC ==>
              if i + 1 == |input| then ReadLine(input[i..], b, max) == (EOF, [])
              else if input[i + 1] == IAC then ReadLine(input[i..], b, max) == ReadLine(input[i + 2..], b + [IAC], max)
              else if input[i + 1] == SB then
                ReadLine(input[i..], b, max)
                    == (match SkipSub(input[i + 2..]) case None => (EOF, []) case Some(rest) => ReadLine(rest, b, max))
              else if Negotiates(input[i + 1]) then
                ReadLine(input[i..], b, max) == if i + 2 == |input| then (EOF, []) else ReadLine(input[i + 3..], b, max)
              else ReadLine(input[i..], b, max) == ReadLine(input[i + 2..], b, max)
    ensures i < |input| && input[i] != IAC ==>
              ReadLine(input[i..], b, max)
              == if input[i] == '\n' then (Line(TrimCR(b)), input[i + 1..])
                 else ReadLine(input[i + 1..], if input[i] == NUL then b else b + [input[i]], max)
  {
    hide SkipSub, TrimCR;
    var s: Str := input[i..];
    if i < |input| {
      assert s[1..] == input[i + 1..];
      if i + 1 < |input| {
        assert s[1] == input[i + 1] && s[2..] == input[i + 2..];
        if i + 2 < |input| { assert s[3..] == input[i + 3..]; }
      }
    }
  }

  // ------------------------------------------------------------ round trip

  datatype SubByte = Plain(c: char) | Escaped(c: char)

  /** What a client may send within a line: data, and anything the protocol puts between data bytes. */
  datatype Item = Data(c: char) | Nul | Command(c: char) | Negotiation(c: char, option: char) | Sub(body: seq<SubByte>)

  predicate IsByte(c: char) {
    c as int < 256
  }

  predicate ValidSub(body: seq<SubByte>) {
    forall i :: 0 <= i < |body| ==> IsByte(body[i].c) && (if body[i].Plain? then body[i].c != IAC else body[i].c != SE)
  }

  predicate Valid(item: Item) {
    match item
    case Data(c) => IsByte(c) && c != '\n' && c != NUL
    case Nul => true
    case Command(c) => IsByte(c) && c != IAC && c != SB && !Negotiates(c)
    case Negotiation(c, option) => Negotiates(c) && IsByte(option)
    case Sub(body) => ValidSub(body)
  }

  predicate AllValid(items: seq<Item>) {
    forall i :: 0 <= i < |items| ==> Valid(items[i])
  }

  function EncodeSub(body: seq<SubByte>): Str
    requires ValidSub(body)
  {
    if body == [] then [IAC, SE]
    else (if body[0].Plain? then [body[0].c] else [IAC, body[0].c]) + EncodeSub(body[1..])
  }

  function EncodeItem(item: Item): (s: Str)
    requires Valid(item)
    ensures s != []
  {
    match item
    case Data(c) => if c == IAC then [IAC, IAC] else [c]
    case Nul => [NUL]
    case Command(c) => [IAC, c]
    case Negotiation(c, option) => [IAC, c, option]
    case Sub(body) => [IAC, SB] + EncodeSub(body)
  }

  function Encode(items: seq<Item>): Str
    requires AllValid(items)
  {
    if items == [] then [] else EncodeItem(items[0]) + Encode(items[1..])
  }

  function Payload(items: seq<Item>): Str
    requires AllValid(items)
  {
    if items == [] then [] else (match items[0] case Data(c) => [c] case _ => []) + Payload(items[1..])
  }

  lemma {:induction false} SkipEncoded(body: seq<SubByte>, rest: Str)
    requires ValidSub(body)
    ensures SkipSub(EncodeSub(body) + rest) == Some(rest)
    decreases |body|
  {
    var s: Str := EncodeSub(body) + rest;
    if body == [] {
      assert s == [IAC, SE] + rest && s[2..] == rest;
    } else {
      var more: Str := EncodeSub(body[1..]) + rest;
      SkipByte(body[0], more);
      hide SkipSub;
      SkipEncoded(body[1..], rest);
      assert s == (if body[0].Plain? then [body[0].c] else [IAC, body[0].c]) + more;
    }
  }

  lemma SkipByte(x: SubByte, more: Str)
    requires IsByte(x.c) && if x.Plain? then x.c != IAC else x.c != SE
    ensures SkipSub((if x.Plain? then [x.c] else [IAC, x.c]) + more) == SkipSub(more)
  {
    assert ([x.c] + more)[1..] == more && ([IAC, x.c] + more)[2..] == more;
  }

  lemma ReadPlain(c: char, rest: Str, b: Str, max: nat)
    requires |b| < max && IsByte(c) && c != IAC && c != '\n'
    ensures ReadLine([c] + rest, b, max) == ReadLine(rest, if c == NUL then b else b + [c], max)
  {
    assert ([c] + rest)[1..] == rest;
  }

  lemma ReadCommand(c: char, rest: Str, b: Str, max: nat)
    requires |b| < max && IsByte(c) && c != SB && !Negotiates(c)
    ensures ReadLine([IAC, c] + rest, b, max) == ReadLine(rest, if c == IAC then b + [IAC] else b, max)
  {
    assert ([IAC, c] + rest)[2..] == rest;
  }

  lemma ReadNegotiation(c: char, option: char, rest: Str, b: Str, max: nat)
    requires |b| < max && Negotiates(c) && IsByte(option)
    ensures ReadLine([IAC, c, option] + rest, b, max) == ReadLine(rest, b, max)
  {
    assert ([IAC, c, option] + rest)[3..] == rest;
  }

  lemma ReadSub(body: seq<SubByte>, rest: Str, b: Str, max: nat)
    requires |b| < max && ValidSub(body)
    ensures ReadLine([IAC, SB] + EncodeSub(body) + rest, b, max) == ReadLine(rest, b, max)
  {
    hide EncodeSub, SkipSub;
    var s: Str := [IAC, SB] + EncodeSub(body) + rest;
    SkipEncoded(body, rest);
    assert s[2..] == EncodeSub(body) + rest;
  }

  /** One item adds its data byte, if it has one, and nothing else. */
  lemma ReadItem(item: Item, rest: Str, b: Str, max: nat)
    requires Valid(item) && |b| < max
    ensures ReadLine(EncodeItem(item) + rest, b, max) == ReadLine(rest, if item.Data? then b + [item.c] else b, max)
  {
    hide ReadLine, EncodeSub, ValidSub;
    match item {
      case Data(c) => if c == IAC { ReadCommand(IAC, rest, b, max); } else { ReadPlain(c, rest, b, max); }
      case Nul => ReadPlain(NUL, rest, b, max);
      case Command(c) => ReadCommand(c, rest, b, max);
      case Negotiation(c, option) => ReadNegotiation(c, option, rest, b, max);
      case Sub(body) => ReadSub(body, rest, b, max);
    }
  }

  /** The line is returned exactly when its bytes fit below the limit; what follows stays unread. */
  lemma {:induction false} ReadItems(items: seq<Item>, rest: Str, b: Str, max: nat)
    requires AllValid(items) && |b| <= max
    ensures var (r, left) := ReadLine(Encode(items) + ['\n'] + rest, b, max);
            var all := b + Payload(items);
            if |all| < max then r == Line(TrimCR(all)) && left == rest else r == TooLong
    decreases |items|
  {
    hide ReadLine, EncodeItem, TrimCR;
    if |b| == max {
      ReadFull(Encode(items) + ['\n'] + rest, b, max);
    } else if items == [] {
      assert Encode(items) + ['\n'] + rest == ['\n'] + rest && b + [] == b;
      ReadNewline(rest, b, max);
    } else {
      var tail: Str := Encode(items[1..]) + ['\n'] + rest;
      var next: Str := if items[0].Data? then b + [items[0].c] else b;
      FirstItem(items, rest, b);
      hide Encode, Payload;
      ReadItem(items[0], tail, b, max);
      ReadItems(items[1..], rest, next, max);
    }
  }

  lemma FirstItem(items: seq<Item>, rest: Str, b: Str)
    requires AllValid(items) && items != []
    ensures Encode(items) + ['\n'] + rest == EncodeItem(items[0]) + (Encode(items[1..]) + ['\n'] + rest)
    ensures b + Payload(items) == (if items[0].Data? then b + [items[0].c] else b) + Payload(items[1..])
  {
    hide EncodeItem, Payload, Encode;
    PayloadFirst(items, b);
    EncodeFirst(items);
    var (head, tail) := (EncodeItem(items[0]), Encode(items[1..]));
    Regroup(head, tail, rest);
  }

  lemma Regroup(head: Str, tail: Str, rest: Str)
    ensures head + tail + ['\n'] + rest == head + (tail + ['\n'] + rest)
  {
  }

  lemma EncodeFirst(items: seq<Item>)
    requires AllValid(items) && items != []
    ensures Encode(items) == EncodeItem(items[0]) + Encode(items[1..])
  {
    hide EncodeItem;
  }

  lemma PayloadFirst(items: seq<Item>, b: Str)
    requires AllValid(items) && items != []
    ensures b + Payload(items) == (if items[0].Data? then b + [items[0].c] else b) + Payload(items[1..])
  {
    hide Encode, EncodeItem, Valid;
    var tail := Payload(items[1..]);
    assert items[0].Data? ==> b + ([items[0].c] + tail) == (b + [items[0].c]) + tail;
    assert [] + tail == tail;
  }

  lemma ReadFull(s: Str, b: Str, max: nat)
    requires |b| >= max
    ensures ReadLine(s, b, max) == (TooLong, s)
  {
  }

  lemma ReadNewline(rest: Str, b: Str, max: nat)
    requires |b| < max
    ensures ReadLine(['\n'] + rest, b, max) == (Line(TrimCR(b)), rest)
  {
    assert (['\n'] + rest)[1..] == rest;
  }

  /** A payload ended by CR LF comes back unchanged, with all interleaved protocol removed, exactly when it fits. */
  lemma LineRoundTrip(items: seq<Item>, payload: Str, rest: Str, max: nat)
    requires AllValid(items) && Payload(items) == payload + ['\r']
    ensures var (r, left) := ReadLine(Encode(items) + ['\n'] + rest, [], max);
            && (r == Line(payload) && left == rest <==> |payload| + 1 < max)
            && (r == TooLong <==> |payload| + 1 >= max)
  {
    hide ReadLine;
    ReadItems(items, rest, [], max);
    assert [] + Payload(items) == payload + ['\r'];
    assert (payload + ['\r'])[..|payload|] == payload;
  }

  /** A payload ended by LF alone comes back as it is, too. */
  lemma LineWithoutCR(items: seq<Item>, rest: Str, max: nat)
    requires AllValid(items) && |Payload(items)| < max
    requires Payload(items) == [] || Payload(items)[|Payload(items)| - 1] != '\r'
    ensures ReadLine(Encode(items) + ['\n'] + rest, [], max) == (Line(Payload(items)), rest)
  {
    hide ReadLine;
    ReadItems(items, rest, [], max);
    assert [] + Payload(items) == Payload(items);
  }

  /** The bytes of the protocol by their numbers: a doubled 255, NUL, and the two kinds of commands. */
  lemma ProtocolBytes(c: char, option: char, rest: Str, b: Str, max: nat)
    requires IsByte(c) && IsByte(option) && |b| < max
    ensures ReadLine([255 as char, 255 as char] + rest, b, max) == ReadLine(rest, b + [255 as char], max)
    ensures ReadLine([0 as char] + rest, b, max) == ReadLine(rest, b, max)
    ensures 251 <= c as int <= 254 ==> ReadLine([255 as char, c, option] + rest, b, max) == ReadLine(rest, b, max)
    ensures c as int < 250 ==> ReadLine([255 as char, c] + rest, b, max) == ReadLine(rest, b, max)
    ensures c as int != 255 ==>
              ReadLine([255 as char, 250 as char, c, 255 as char, 240 as char] + rest, b, max) == ReadLine(rest, b, max)
  {
    hide ReadLine;
    ReadCommand(255 as char, rest, b, max);
    ReadPlain(0 as char, rest, b, max);
    if 251 <= c as int <= 254 { ReadNegotiation(c, option, rest, b, max); }
    if c as int < 250 { ReadCommand(c, rest, b, max); }
    if c as int != 255 {
      var body := [Plain(c)];
      assert body[1..] == [] && EncodeSub(body) == [c] + [IAC, SE];
      assert [IAC, SB] + EncodeSub(body) + rest == [255 as char, 250 as char, c, 255 as char, 240 as char] + rest;
      ReadSub(body, rest, b, max);
    }
  }

  /** `left` is the end of s, after a line feed if a line was read, and nothing if the input ended. */
  predicate EndOf(s: Str, r: Outcome, left: Str) {
    && |left| <= |s| && left == s[|s| - |left|..]
    && (r.Line? ==> |left| < |s| && s[|s| - |left| - 1] == '\n') && (r == EOF ==> left == [])
  }

  lemma EndOfMore(s: Str, n: nat, b: Str, max: nat)
    requires n <= |s| && EndOf(s[n..], ReadLine(s[n..], b, max).0, ReadLine(s[n..], b, max).1)
    ensures EndOf(s, ReadLine(s[n..], b, max).0, ReadLine(s[n..], b, max).1)
  {
    hide ReadLine;
  }

  /** No line comes back unless its line feed was read. */
  lemma {:induction false} LineNeedsLF(s: Str, b: Str, max: nat)
    ensures EndOf(s, ReadLine(s, b, max).0, ReadLine(s, b, max).1)
    decreases |s|
  {
    if |b| < max && s != [] {
      ReadAt(s, 0, b, max);
      assert s[0..] == s;
      EmptyEnd(s);
      LineFeedEnd(s, TrimCR(b));
      hide ReadLine, TrimCR, EndOf, SkipSub;
      if s[0] != IAC {
        var next: Str := if s[0] == NUL then b else b + [s[0]];
        LineNeedsLF(s[1..], next, max);
        EndOfMore(s, 1, next, max);
      } else if |s| > 1 {
        LineNeedsLF(s[2..], b + [IAC], max);
        EndOfMore(s, 2, b + [IAC], max);
        LineNeedsLF(s[2..], b, max);
        EndOfMore(s, 2, b, max);
        if SkipSub(s[2..]).Some? {
          SkipIsSuffix(s[2..]);
          var n := |s| - |SkipSub(s[2..]).value|;
          assert SkipSub(s[2..]).value == s[n..];
          LineNeedsLF(s[n..], b, max);
          EndOfMore(s, n, b, max);
        }
        if |s| > 2 {
          LineNeedsLF(s[3..], b, max);
          EndOfMore(s, 3, b, max);
        }
      }
    }
  }

  lemma EmptyEnd(s: Str)
    ensures EndOf(s, EOF, [])
  {
  }

  lemma LineFeedEnd(s: Str, text: Str)
    requires s != []
    ensures s[0] == '\n' ==> EndOf(s, Line(text), s[1..])
  {
  }

  lemma {:induction false} SkipIsSuffix(s: Str)
    ensures SkipSub(s).Some? ==> SkipSub(s).value == s[|s| - |SkipSub(s).value|..]
    decreases |s|
  {
    if s != [] {
      if s[0] != IAC { SkipIsSuffix(s[1..]); } else if |s| > 1 { SkipIsSuffix(s[2..]); }
    }
  }

  /** Every line returned, from any bytes, is shorter than the limit. */
  lemma {:induction false} LinesAreBounded(s: Str, b: Str, max: nat)
    ensures ReadLine(s, b, max).0.Line? ==> |ReadLine(s, b, max).0.text| < max
    ensures |ReadLine(s, b, max).1| <= |s|
    decreases |s|
  {
    hide TrimCR;
    if |b| < max && s != [] {
      if s[0] == IAC {
        if |s| > 1 {
          LinesAreBounded(s[2..], b + [IAC], max);
          LinesAreBounded(s[2..], b, max);
          if SkipSub(s[2..]).Some? { LinesAreBounded(SkipSub(s[2..]).value, b, max); }
          if |s| > 2 { LinesAreBounded(s[3..], b, max); }
        }
      } else {
        LinesAreBounded(s[1..], b, max);
        LinesAreBounded(s[1..], b + [s[0]], max);
      }
    }
  }
}
