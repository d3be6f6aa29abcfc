/** Newline-delimited messages read from a stream that arrives in arbitrary pieces. */
module Framing {
  import opened Basics
  import opened Wrappers

  const LIMIT := 16_384
  const NEWLINE: Byte := 10

  // ---------------------------------------------------------------- what a stream says

  datatype End = Partial(rest: seq<Byte>) | TooLong | Invalid

  /** The messages of a stream and what comes after them. */
  datatype Reading<M> = Reading(messages: seq<M>, end: End)

  /** Position of the first newline, or the length. */
  function Line(bytes: seq<Byte>): (p: nat)
    ensures p <= |bytes| && (p < |bytes| ==> bytes[p] == NEWLINE) && forall i | 0 <= i < p :: bytes[i] != NEWLINE
  {
    if bytes == [] || bytes[0] == NEWLINE then 0 else 1 + Line(bytes[1..])
  }

  function Before<M>(m: M, r: Reading<M>): Reading<M> {
    Reading([m] + r.messages, r.end)
  }

  /** Reads the stream as a whole: line by line, up to one that is too long or does not parse. */
  function Frames<M>(stream: seq<Byte>, parse: seq<Byte> -> Option<M>): Reading<M>
    decreases |stream|
  {
    var p := Line(stream);
    if p == |stream| then Reading([], if p > LIMIT then TooLong else Partial(stream))
    else if p + 1 > LIMIT then Reading([], TooLong)
    else
      match parse(stream[..p + 1])
      case None => Reading([], Invalid)
      case Some(m) => Before(m, Frames(stream[p + 1..], parse))
  }

  function Joined<M>(messages: seq<M>, r: Reading<M>): Reading<M> {
    Reading(messages + r.messages, r.end)
  }

  lemma JoinedOne<M>(messages: seq<M>, m: M, r: Reading<M>)
    ensures Joined(messages, Before(m, r)) == Joined(messages + [m], r)
  {
    assert messages + ([m] + r.messages) == messages + [m] + r.messages;
  }

  /** The first newline is where it is, wherever one looks from. */
  lemma LineIs(bytes: seq<Byte>, p: nat)
    requires p <= |bytes| && (p < |bytes| ==> bytes[p] == NEWLINE) && forall i | 0 <= i < p :: bytes[i] != NEWLINE
    ensures Line(bytes) == p
  {
  }

  // ---------------------------------------------------------------- reading in pieces

  datatype Outcome<M> = More | Message(value: M) | TimedOut | Eof | Failed(why: End)

  class Connection<M> {
    const parse: seq<Byte> -> Option<M>
    var unread: seq<Byte>
    var buffer: seq<Byte>

    constructor (stream: seq<Byte>, parse: seq<Byte> -> Option<M>)
      ensures unread == stream && buffer == [] && this.parse == parse
    {
      this.parse, unread, buffer := parse, stream, [];
    }

    /** The buffer holds the beginning of a line, within the limit. */
    ghost predicate Valid()
      reads this
    {
      |buffer| <= LIMIT && forall i | 0 <= i < |buffer| :: buffer[i] != NEWLINE
    }

    /** What is still to be read, counting what is buffered. */
    ghost function Ahead(): Reading<M>
      reads this
    {
      Frames(buffer + unread, parse)
    }

    /** Takes one read of up to `size` bytes, or a timeout. What the stream says is not
        changed by how much of it has arrived: the outcome is the next thing it says. */
    method ReadMessage(size: Option<nat>) returns (r: Outcome<M>)
      requires Valid()
      modifies this
      ensures Valid()
      ensures match r
              case More => Ahead() == old(Ahead()) && |unread| < |old(unread)|
              case Message(m) => old(Ahead()) == Before(m, Ahead()) && |unread| < |old(unread)|
              case TimedOut => size.None? && unread == old(unread) && buffer == old(buffer)
              case Eof => unread == old(unread) == [] && buffer == old(buffer)
              case Failed(why) => old(Ahead()) == Reading([], why) && !why.Partial?
    {
      if size.None? { return TimedOut; }
      if unread == [] { return Eof; }
      var available := unread[..if 1 <= size.value <= |unread| then size.value else |unread|];
      var p := Line(available);
      var count := if p < |available| then p + 1 else |available|;
      NextLine(buffer, unread, |available|);
      Shifted(buffer, unread, |available|, count);
      if |buffer| + count > LIMIT { return Failed(TooLong); }
      buffer := buffer + available[..count];
      unread := unread[count..];
      if buffer[|buffer| - 1] != NEWLINE { return More; }
      var message := parse(buffer);
      buffer := [];
      assert buffer + unread == unread;
      if message.None? { return Failed(Invalid); }
      return Message(message.value);
    }
  }

  lemma Shifted(buffer: seq<Byte>, unread: seq<Byte>, arrived: nat, count: nat)
    requires count <= arrived <= |unread|
    ensures var (next, all) := (buffer + unread[..arrived][..count], buffer + unread);
            next + unread[count..] == all && all[..|next|] == next && all[|next|..] == unread[count..]
  {
    assert unread[..arrived][..count] == unread[..count];
    assert unread[..count] + unread[count..] == unread;
  }

  /** Where the first newline of buffered and unread bytes is, seen from a piece that has
      arrived. */
  lemma NextLine(buffer: seq<Byte>, unread: seq<Byte>, arrived: nat)
    requires arrived <= |unread| && forall i | 0 <= i < |buffer| :: buffer[i] != NEWLINE
    ensures var p := Line(unread[..arrived]);
            if p < arrived then Line(buffer + unread) == |buffer| + p else Line(buffer + unread) >= |buffer| + arrived
  {
    var piece := unread[..arrived];
    var n := |buffer| + Line(piece);
    forall i | 0 <= i < n ensures (buffer + unread)[i] != NEWLINE {
      if i >= |buffer| { assert (buffer + unread)[i] == piece[i - |buffer|]; }
    }
    LineAtLeast(buffer + unread, n);
    if Line(piece) < arrived {
      assert (buffer + unread)[n] == piece[Line(piece)];
      LineAtMost(buffer + unread, n);
    }
  }

  lemma LineAtLeast(bytes: seq<Byte>, n: nat)
    requires n <= |bytes| && forall i | 0 <= i < n :: bytes[i] != NEWLINE
    ensures Line(bytes) >= n
  {
    var p := Line(bytes);
  }

  lemma LineAtMost(bytes: seq<Byte>, n: nat)
    requires n < |bytes| && bytes[n] == NEWLINE
    ensures Line(bytes) <= n
  {
    var p := Line(bytes);
  }

  /** However the stream is cut into reads, and whatever timeouts come between: the messages
      delivered are the first ones the stream says, in order; a failure is the one the stream
      says, right after them; and what is buffered is always within the limit. */
  method Drive<M>(stream: seq<Byte>, pieces: seq<Option<nat>>, parse: seq<Byte> -> Option<M>)
    returns (messages: seq<M>, failed: Option<End>, buffered: seq<Byte>, unread: seq<Byte>)
    ensures match failed
            case Some(why) => Frames(stream, parse) == Reading(messages, why)
            case None => Frames(stream, parse) == Joined(messages, Frames(buffered + unread, parse))
    ensures |buffered| <= LIMIT && forall i | 0 <= i < |buffered| :: buffered[i] != NEWLINE
    ensures failed.None? && unread == [] ==> Frames(stream, parse) == Reading(messages, Partial(buffered))
  {
    var c := new Connection<M>(stream, parse);
    messages, failed := [], None;
    assert [] + stream == stream;
    var k := 0;
    while k < |pieces| && failed.None?
      invariant fresh(c) && c.Valid() && c.parse == parse
      invariant match failed
                case Some(why) => Frames(stream, parse) == Reading(messages, why)
                case None => Frames(stream, parse) == Joined(messages, c.Ahead())
      decreases |pieces| - k, if failed.None? then 1 else 0
    {
      var r := c.ReadMessage(pieces[k]);
      k := k + 1;
      match r
      case Message(m) =>
        JoinedOne(messages, m, c.Ahead());
        messages := messages + [m];
      case Failed(why) => failed := Some(why);
      case _ =>
    }
    buffered, unread := c.buffer, c.unread;
    assert buffered + [] == buffered;
    LineIs(buffered, |buffered|);
  }

  // ---------------------------------------------------------------- which lines are accepted

  /** A line: bytes other than newlines, and a newline. */
  ghost predicate IsLine(line: seq<Byte>) {
    && line != [] && line[|line| - 1] == 10
    && forall i | 0 <= i < |line| - 1 :: line[i] != 10
  }

  function Flat(lines: seq<seq<Byte>>): seq<Byte> {
    if lines == [] then [] else lines[0] + Flat(lines[1..])
  }

  ghost predicate Accepted<M>(line: seq<Byte>, parse: seq<Byte> -> Option<M>) {
    IsLine(line) && |line| <= 16384 && parse(line).Some?
  }

  ghost function Values<M>(lines: seq<seq<Byte>>, parse: seq<Byte> -> Option<M>): seq<M>
    requires forall i | 0 <= i < |lines| :: Accepted(lines[i], parse)
  {
    if lines == [] then []
    else
      assert Accepted(lines[0], parse);
      [parse(lines[0]).value] + Values(lines[1..], parse)
  }

  lemma FirstLine(line: seq<Byte>, rest: seq<Byte>)
    requires IsLine(line)
    ensures Line(line + rest) == |line| - 1 && (line + rest)[..|line|] == line && (line + rest)[|line|..] == rest
  {
    LineIs(line + rest, |line| - 1);
  }

  lemma GoodLineFirst<M>(line: seq<Byte>, rest: seq<Byte>, parse: seq<Byte> -> Option<M>)
    requires Accepted(line, parse)
    ensures Frames(line + rest, parse) == Before(parse(line).value, Frames(rest, parse))
  {
    FirstLine(line, rest);
  }

  lemma BeforeJoined<M>(m: M, messages: seq<M>, r: Reading<M>)
    ensures Before(m, Joined(messages, r)) == Joined([m] + messages, r)
  {
    assert [m] + (messages + r.messages) == [m] + messages + r.messages;
  }

  /** Framing is the inverse of sending lines: a stream made of acceptable lines says exactly
      their messages and then whatever follows. */
  lemma {:induction false} LinesComeBack<M>(lines: seq<seq<Byte>>, rest: seq<Byte>, parse: seq<Byte> -> Option<M>)
    requires forall i | 0 <= i < |lines| :: Accepted(lines[i], parse)
    ensures Frames(Flat(lines) + rest, parse) == Joined(Values(lines, parse), Frames(rest, parse))
  {
    if lines == [] {
      assert [] + rest == rest;
    } else {
      var more := Flat(lines[1..]) + rest;
      assert Accepted(lines[0], parse);
      assert Flat(lines) + rest == lines[0] + more;
      GoodLineFirst(lines[0], more, parse);
      LinesComeBack(lines[1..], rest, parse);
      BeforeJoined(parse(lines[0]).value, Values(lines[1..], parse), Frames(rest, parse));
    }
  }

  /** A line over the limit, newline included, or one that does not parse, ends the reading. */
  lemma BadLineEnds<M>(line: seq<Byte>, rest: seq<Byte>, parse: seq<Byte> -> Option<M>)
    requires IsLine(line) && !Accepted(line, parse)
    ensures Frames(line + rest, parse) == Reading([], if |line| > 16384 then TooLong else Invalid)
  {
    FirstLine(line, rest);
  }

  /** What has no newline yet is kept for later, unless it is over the limit already. */
  lemma RestIsKept<M>(rest: seq<Byte>, parse: seq<Byte> -> Option<M>)
    requires forall i | 0 <= i < |rest| :: rest[i] != 10
    ensures Frames(rest, parse) == Reading([], if |rest| > 16384 then TooLong else Partial(rest))
  {
    LineIs(rest, |rest|);
  }
}
