// Length-prefixed frames on a byte stream: "<magic> <length>\n" and exactly that many
// body bytes, whatever they are.
module Framing {
  import opened Seqs
  import opened Text

  const MAGIC := "OPSCORE-ISO/1"

  datatype Error = EndOfStream | MalformedHeader | BadLength | TooLarge | ShortBody

  function Header(n: nat): string {
    MAGIC + [' '] + FormatNat(n) + ['\n']
  }

  function Frame(body: string): string {
    Header(|body|) + body
  }

  function Frames(bodies: seq<string>): string {
    if bodies == [] then [] else Frame(bodies[0]) + Frames(bodies[1..])
  }

  // The position just behind the first newline; None when there is none.
  function LineEnd(s: string): (r: Option<nat>)
    ensures r.Some? ==> 0 < r.value <= |s|
  {
    if s == [] then None
    else if s[0] == '\n' then Some(1)
    else match LineEnd(s[1..]) case None => None case Some(n) => Some(n + 1)
  }

  // The declared length of a header line.
  function Declared(header: string, maxBytes: int): Result<nat, Error> {
    var fields := Fields(TrimSpace(header));
    if |fields| != 2 || fields[0] != MAGIC then Err(MalformedHeader)
    else
      match ParseInt64(fields[1])
      case None => Err(BadLength)
      case Some(n) => if n < 0 then Err(BadLength) else if maxBytes > 0 && n > maxBytes then Err(TooLarge) else Ok(n)
  }

  // One read: the body or the error, and what is left of the stream.
  function ReadOne(s: string, maxBytes: int): (Result<string, Error>, string) {
    match LineEnd(s)
    case None => (Err(EndOfStream), [])
    case Some(end) =>
      match Declared(s[..end], maxBytes)
      case Err(e) => (Err(e), s[end..])
      case Ok(n) =>
        if |s| - end < n then (Err(ShortBody), []) else (Ok(s[end..end + n]), s[end + n..])
  }

  class Stream {
    // bytes written and not yet read
    var pending: string

    constructor (bytes: string)
      ensures pending == bytes
    {
      pending := bytes;
    }

    method Write(bytes: string)
      modifies this
      ensures pending == old(pending) + bytes
    {
      pending := pending + bytes;
    }

    method WriteFrame(body: string)
      modifies this
      ensures pending == old(pending) + Frame(body)
    {
      Write(Header(|body|));
      Write(body);
      assert pending == old(pending) + (Header(|body|) + body);
    }

    // The line up to and with the first newline; without one the stream is used up.
    method ReadLine() returns (line: Option<string>)
      modifies this
      ensures match LineEnd(old(pending))
              case None => line == None && pending == []
              case Some(end) => line == Some(old(pending)[..end]) && pending == old(pending)[end..]
    {
      var i := 0;
      while i < |pending| && pending[i] != '\n'
        invariant 0 <= i <= |pending|
        invariant match LineEnd(pending[i..])
                  case None => LineEnd(pending) == None
                  case Some(e) => LineEnd(pending) == Some(i + e)
      {
        assert pending[i..][1..] == pending[i + 1..];
        i := i + 1;
      }
      if i == |pending| {
        assert pending[i..] == [];
        pending := [];
        return None;
      }
      line := Some(pending[..i + 1]);
      pending := pending[i + 1..];
    }

    method ReadFrame(maxBytes: int) returns (r: Result<string, Error>)
      modifies this
      ensures (r, pending) == ReadOne(old(pending), maxBytes)
    {
      hide Fields, TrimSpace, ParseInt64, LineEnd;
      var header := ReadLine();
      if header.None? {
        return Err(EndOfStream);
      }
      var fields := Fields(TrimSpace(header.value));
      if |fields| != 2 || fields[0] != MAGIC {
        return Err(MalformedHeader);
      }
      var n := ParseInt64(fields[1]);
      if n.None? || n.value < 0 {
        return Err(BadLength);
      }
      if maxBytes > 0 && n.value > maxBytes {
        return Err(TooLarge);
      }
      if |pending| < n.value {
        pending := [];
        return Err(ShortBody);
      }
      ghost var s := old(pending);
      ghost var end := LineEnd(s).value;
      assert s[end..][..n.value] == s[end..end + n.value] && s[end..][n.value..] == s[end + n.value..];
      r := Ok(pending[..n.value]);
      pending := pending[n.value..];
    }
  }

  // ----- reading undoes writing -----

  lemma {:induction false} LineEndOf(line: string, rest: string)
    requires '\n' !in line
    ensures LineEnd(line + ['\n'] + rest) == Some(|line| + 1)
  {
    if line != [] {
      assert (line + ['\n'] + rest)[1..] == line[1..] + ['\n'] + rest;
      LineEndOf(line[1..], rest);
    }
  }

  lemma DigitsAreWords(s: string)
    requires forall i :: 0 <= i < |s| ==> IsDigit(s[i])
    ensures forall i :: 0 <= i < |s| ==> !IsSpace(s[i])
    ensures '\n' !in s
  {
    forall i | 0 <= i < |s| ensures !IsSpace(s[i]) {
      assert IsDigit(s[i]);
    }
  }

  lemma HeaderIsRead(n: nat, maxBytes: int)
    requires n <= MAX_INT64
    ensures Declared(Header(n), maxBytes) == if maxBytes > 0 && n > maxBytes then Err(TooLarge) else Ok(n)
  {
    hide Fields, TrimSpace, ParseInt64, FormatNat, IsSpace, IsDigit;
    var digits := FormatNat(n);
    DigitsAreWords(digits);
    ParseIntOfFormat(n);
    MagicIsAWord();
    var line := MAGIC + [' '] + digits;
    assert line[0] == MAGIC[0] && line[|line| - 1] == digits[|digits| - 1];
    assert Header(n) == line + ['\n'];
    TrimOfHeader(line);
    FieldsOfTwo(MAGIC, digits);
  }

  lemma MagicIsAWord()
    ensures forall i :: 0 <= i < |MAGIC| ==> !IsSpace(MAGIC[i])
    ensures '\n' !in MAGIC
  {
  }

  lemma TrimOfHeader(line: string)
    requires line != [] && !IsSpace(line[0]) && !IsSpace(line[|line| - 1])
    ensures TrimSpace(line + ['\n']) == line
  {
    var s := line + ['\n'];
    assert TrimLeft(s) == s;
    assert s[..|s| - 1] == line;
    assert TrimRight(line) == line;
  }

  // A frame read back gives its body and leaves exactly what follows it, newlines in
  // the body or not; over the cap, it is refused with the body still unread.
  lemma ReadBack(body: string, rest: string, maxBytes: int)
    requires |body| <= MAX_INT64
    ensures ReadOne(Frame(body) + rest, maxBytes)
         == if maxBytes > 0 && |body| > maxBytes then (Err(TooLarge), body + rest) else (Ok(body), rest)
  {
    hide LineEnd, Declared, FormatNat, IsSpace, IsDigit;
    var s := Frame(body) + rest;
    var line := MAGIC + [' '] + FormatNat(|body|);
    DigitsAreWords(FormatNat(|body|));
    MagicIsAWord();
    HeaderIsRead(|body|, maxBytes);
    assert '\n' !in line;
    assert s == line + ['\n'] + (body + rest);
    LineEndOf(line, body + rest);
    var end := |line| + 1;
    assert s[..end] == Header(|body|) && s[end..] == body + rest;
    assert s[end..end + |body|] == body && s[end + |body|..] == rest;
  }

  // Reading n frames off a stream; None when one of the reads fails.
  function ReadMany(s: string, n: nat, maxBytes: int): Option<(seq<string>, string)> {
    if n == 0 then Some(([], s))
    else
      match ReadOne(s, maxBytes)
      case (Err(_), _) => None
      case (Ok(body), rest) =>
        match ReadMany(rest, n - 1, maxBytes)
        case None => None
        case Some((bodies, left)) => Some(([body] + bodies, left))
  }

  // Any concatenation of frames reads back as the same bodies in order and consumes
  // exactly the bytes written.
  lemma {:induction false} ManyReadBack(bodies: seq<string>, rest: string, maxBytes: int)
    requires forall b :: b in bodies ==> |b| <= MAX_INT64 && (maxBytes > 0 ==> |b| <= maxBytes)
    ensures ReadMany(Frames(bodies) + rest, |bodies|, maxBytes) == Some((bodies, rest))
  {
    hide ReadOne, Frame;
    if bodies == [] {
      assert Frames(bodies) + rest == rest;
    } else {
      var tail := Frames(bodies[1..]) + rest;
      assert Frames(bodies) + rest == Frame(bodies[0]) + tail;
      ReadBack(bodies[0], tail, maxBytes);
      ManyReadBack(bodies[1..], rest, maxBytes);
      assert bodies == [bodies[0]] + bodies[1..];
    }
  }

  // So no byte stream is two different sequences of frames.
  lemma FramesAreUnambiguous(a: seq<string>, b: seq<string>)
    requires forall x :: x in a || x in b ==> |x| <= MAX_INT64
    requires Frames(a) == Frames(b)
    ensures a == b
  {
    if |a| <= |b| {
      SameFrames(a, b);
    } else {
      SameFrames(b, a);
    }
  }

  lemma {:induction false} SameFrames(a: seq<string>, b: seq<string>)
    requires forall x :: x in a || x in b ==> |x| <= MAX_INT64
    requires Frames(a) == Frames(b) && |a| <= |b|
    ensures a == b
  {
    hide Frame, Frames, ReadMany;
    ManyReadBack(a, [], 0);
    assert Frames(a) + [] == Frames(a);
    var init, rest := b[..|a|], b[|a|..];
    FramesConcat(init, rest);
    assert b == init + rest;
    ManyReadBack(init, Frames(rest), 0);
    NoBytesNoFrames(rest);
  }

  lemma NoBytesNoFrames(a: seq<string>)
    ensures Frames(a) == [] <==> a == []
  {
  }

  lemma {:induction false} FramesConcat(a: seq<string>, b: seq<string>)
    ensures Frames(a + b) == Frames(a) + Frames(b)
  {
    if a == [] {
      assert a + b == b;
    } else {
      assert (a + b)[1..] == a[1..] + b;
      FramesConcat(a[1..], b);
      assert Frames(a + b) == Frame(a[0]) + (Frames(a[1..]) + Frames(b));
    }
  }

  // A header that declares more than the cap is refused before any body byte is read:
  // everything behind the header line is still in the stream.
  lemma OversizedLeavesTheBody(s: string, maxBytes: int, end: nat)
    requires LineEnd(s) == Some(end) && Declared(s[..end], 0).Ok? && maxBytes > 0
    ensures ReadOne(s, maxBytes) == (Err(TooLarge), s[end..]) <==> Declared(s[..end], 0).value > maxBytes
  {
  }
}
