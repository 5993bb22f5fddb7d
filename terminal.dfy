/** The two terminal routes. `terminal_execute` runs a command to the end
    and answers with its standard output followed by its standard error,
    converted from ANSI colour codes to HTML. `terminal_stream` polls the
    command's channel and streams each block it receives, converted the
    same way, until the command exits. The remote command, the byte
    decoders and the converter are parameters of the model. */
module Terminal {
  import opened Outcomes
  import opened RemoteFs

  // ---------------------------------------------------------------------
  // terminal_execute

  /** What running a command gave: its two output streams, or the text of
      the exception `exec_command` raised. */
  datatype Run = Finished(stdout: seq<byte>, stderr: seq<byte>) | Raised(msg: string)

  datatype ExecReply = Output(html: string) | ExecError(message: string)

  /** `terminal_execute`: `decode` is the strict UTF-8 decoder (it fails on
      malformed input), `conv` the ANSI-to-HTML converter. */
  function TerminalExecute(connected: bool, cmd: string, run: string -> Run,
                           decode: seq<byte> -> Result<string>, conv: string -> string): (r: ExecReply)
    ensures !connected ==> r == ExecError("SSH not connected!")
    ensures connected && cmd == "" ==> r == ExecError("No command provided")
    ensures connected && cmd != "" && run(cmd).Raised? ==> r == ExecError(run(cmd).msg)
    ensures connected && cmd != "" && run(cmd).Finished? ==>
      var out, err := decode(run(cmd).stdout), decode(run(cmd).stderr);
      if out.Ok? && err.Ok? then r == Output(conv(out.value + err.value))
      else r == ExecError(if out.Err? then out.msg else err.msg)
  {
    if !connected then ExecError("SSH not connected!")
    else if cmd == "" then ExecError("No command provided")
    else match run(cmd)
      case Raised(m) => ExecError(m)
      case Finished(so, se) =>
        match decode(so)
        case Err(m) => ExecError(m)
        case Ok(out) =>
          match decode(se)
          case Err(m) => ExecError(m)
          case Ok(err) => Output(conv(out + err))
  }

  /** With a converter that leaves plain text alone, the answer is the
      standard output with the standard error after it. */
  lemma ExecuteOutputOrder(cmd: string, run: string -> Run, decode: seq<byte> -> Result<string>,
                           out: string, err: string)
    requires cmd != "" && run(cmd).Finished?
    requires decode(run(cmd).stdout) == Ok(out) && decode(run(cmd).stderr) == Ok(err)
    ensures var r := TerminalExecute(true, cmd, run, decode, s => s);
      r.Output? && r.html[..|out|] == out && r.html[|out|..] == err
  {
  }

  // ---------------------------------------------------------------------
  // terminal_stream: the channel

  /** What happens on the channel between two polls: some bytes arrive and
      the command may exit; or the channel raises. */
  datatype Tick = Tick(arrived: seq<byte>, exited: bool) | Broken(msg: string)

  const BlockSize: nat := 1024

  /** A script stops when it holds an exit or an exception. */
  predicate Stops(ticks: seq<Tick>)
  {
    exists i :: 0 <= i < |ticks| && (ticks[i].Broken? || ticks[i].exited)
  }

  /** An SSH session channel that runs one command, driven by a script of
      ticks: each poll of `recv_ready` first lets the next tick happen. */
  class Channel {
    var buffer: seq<byte>
    var exited: bool
    const ticks: seq<Tick>
    var pos: nat

    constructor (script: seq<Tick>)
      ensures buffer == [] && !exited && ticks == script && pos == 0
    {
      buffer, exited, ticks, pos := [], false, script, 0;
    }

    /** `recv_ready`: whether received bytes are waiting, after the next
        tick; a broken tick raises. */
    method RecvReady() returns (r: Result<bool>)
      requires pos < |ticks|
      modifies this
      ensures pos == old(pos) + 1
      ensures old(ticks[pos]).Broken? ==>
        r == Err(old(ticks[pos]).msg) && buffer == old(buffer) && exited == old(exited)
      ensures old(ticks[pos]).Tick? ==>
        buffer == old(buffer) + old(ticks[pos]).arrived
        && exited == (old(exited) || old(ticks[pos]).exited)
        && r == Ok(|buffer| > 0)
    {
      var t := ticks[pos];
      pos := pos + 1;
      if t.Broken? {
        return Err(t.msg);
      }
      buffer := buffer + t.arrived;
      exited := exited || t.exited;
      r := Ok(|buffer| > 0);
    }

    /** `recv(n)`: up to `n` of the waiting bytes, oldest first. */
    method Recv(n: nat) returns (data: seq<byte>)
      modifies this
      ensures data == old(buffer)[..Min(n, |old(buffer)|)]
      ensures buffer == old(buffer)[Min(n, |old(buffer)|)..]
      ensures exited == old(exited) && pos == old(pos)
    {
      var m := Min(n, |buffer|);
      data := buffer[..m];
      buffer := buffer[m..];
    }

    /** `exit_status_ready`. */
    function ExitStatusReady(): bool
      reads this
    {
      exited
    }
  }

  function Min(a: nat, b: nat): nat
  {
    if a <= b then a else b
  }

  // ---------------------------------------------------------------------
  // terminal_stream: what the loop yields

  /** One element of the stream before conversion: a received block, or the
      final error. */
  datatype Piece = Block(data: seq<byte>) | Failed(msg: string)

  /** The pieces the polling loop yields from the buffer `buf` onwards,
      one poll per tick, stopping at the first exit or exception. */
  function Pieces(buf: seq<byte>, ticks: seq<Tick>): seq<Piece>
    decreases |ticks|
  {
    if ticks == [] then []
    else match ticks[0]
      case Broken(m) => [Failed(m)]
      case Tick(arrived, exited) =>
        var b := buf + arrived;
        var n := Min(BlockSize, |b|);
        var got := if |b| > 0 then [Block(b[..n])] else [];
        if exited then got else got + Pieces(b[n..], ticks[1..])
  }

  /** The text a piece becomes on the wire. */
  function Show(p: Piece, decode: seq<byte> -> string, conv: string -> string): string
  {
    match p
    case Block(data) => conv(decode(data))
    case Failed(m) => "<br>Error: " + m
  }

  function ShowAll(ps: seq<Piece>, decode: seq<byte> -> string, conv: string -> string): seq<string>
  {
    if ps == [] then [] else [Show(ps[0], decode, conv)] + ShowAll(ps[1..], decode, conv)
  }

  lemma {:induction false} ShowAllAppend(a: seq<Piece>, b: seq<Piece>, decode: seq<byte> -> string, conv: string -> string)
    ensures ShowAll(a + b, decode, conv) == ShowAll(a, decode, conv) + ShowAll(b, decode, conv)
  {
    if a == [] {
      assert a + b == b;
    } else {
      var h := [Show(a[0], decode, conv)];
      assert (a + b)[0] == a[0] && (a + b)[1..] == a[1..] + b;
      assert ShowAll(a + b, decode, conv) == h + ShowAll(a[1..] + b, decode, conv);
      ShowAllAppend(a[1..], b, decode, conv);
      assert ShowAll(a, decode, conv) == h + ShowAll(a[1..], decode, conv);
    }
  }

  lemma ShowAllOne(p: Piece, decode: seq<byte> -> string, conv: string -> string)
    ensures ShowAll([p], decode, conv) == [Show(p, decode, conv)]
  {
    assert [p][1..] == [];
  }

  /** One poll that does not raise: the block it receives, if any, comes
      first, and the rest follows from the remaining buffer unless the
      command has exited. */
  lemma PiecesTick(buf: seq<byte>, ticks: seq<Tick>)
    requires ticks != [] && ticks[0].Tick?
    ensures var b := buf + ticks[0].arrived;
      var n := Min(BlockSize, |b|);
      Pieces(buf, ticks) == (if |b| > 0 then [Block(b[..n])] else [])
                            + (if ticks[0].exited then [] else Pieces(b[n..], ticks[1..]))
  {
  }

  /** One pass of `generate`'s polling loop: the chunks it yields, and
      whether the loop ends (the command exited or the channel raised).
      The pieces of the whole stream are what this pass yields followed,
      unless it ends the loop, by the pieces of the rest. */
  method Poll(ch: Channel, decode: seq<byte> -> string, conv: string -> string)
    returns (out: seq<string>, stop: bool, ghost got: seq<Piece>)
    requires ch.pos < |ch.ticks| && !ch.exited && Stops(ch.ticks[ch.pos..])
    modifies ch
    ensures ch.pos == old(ch.pos) + 1
    ensures !stop ==> Stops(ch.ticks[ch.pos..])
    ensures out == ShowAll(got, decode, conv)
    ensures stop ==> Pieces(old(ch.buffer), ch.ticks[old(ch.pos)..]) == got
    ensures !stop ==>
      !ch.exited && ch.ticks[old(ch.pos)].Tick? && !ch.ticks[old(ch.pos)].exited
      && Pieces(old(ch.buffer), ch.ticks[old(ch.pos)..]) == got + Pieces(ch.buffer, ch.ticks[ch.pos..])
  {
    ghost var rest := ch.ticks[ch.pos..];
    ghost var buf := ch.buffer;
    var ready := ch.RecvReady();
    assert rest[0] == ch.ticks[ch.pos - 1] && rest[1..] == ch.ticks[ch.pos..];
    if ready.Err? {
      got := [Failed(ready.msg)];
      ShowAllOne(Failed(ready.msg), decode, conv);
      return ["<br>Error: " + ready.msg], true, got;
    }
    PiecesTick(buf, rest);
    ghost var b := ch.buffer;
    out, got := [], [];
    if ready.value {
      // `recv_ready` reports bytes waiting, so `data` is never empty and
      // the loop's exit on an empty read cannot fire.
      var data := ch.Recv(BlockSize);
      got := [Block(data)];
      ShowAllOne(Block(data), decode, conv);
      out := [conv(decode(data))];
    }
    assert got + [] == got;
    stop := ch.ExitStatusReady();
    if !stop {
      StopsLater(rest);
    }
  }

  /** `generate`: polls the channel until the command exits or the channel
      raises, yielding each received block of at most 1024 bytes decoded
      (with replacement) and converted. */
  method Generate(ch: Channel, decode: seq<byte> -> string, conv: string -> string)
    returns (chunks: seq<string>)
    requires ch.pos <= |ch.ticks| && Stops(ch.ticks[ch.pos..]) && !ch.exited
    modifies ch
    ensures chunks == ShowAll(Pieces(old(ch.buffer), ch.ticks[old(ch.pos)..]), decode, conv)
  {
    chunks := [];
    ghost var whole := Pieces(ch.buffer, ch.ticks[ch.pos..]);
    ghost var done: seq<Piece> := [];
    var stop := false;
    while !stop
      invariant ch.pos <= |ch.ticks|
      invariant !stop ==> !ch.exited && Stops(ch.ticks[ch.pos..])
      invariant chunks == ShowAll(done, decode, conv)
      invariant whole == done + (if stop then [] else Pieces(ch.buffer, ch.ticks[ch.pos..]))
      decreases |ch.ticks| - ch.pos, !stop
    {
      StopsNonEmpty(ch.ticks[ch.pos..]);
      var out;
      ghost var got;
      out, stop, got := Poll(ch, decode, conv);
      ghost var tail := if stop then [] else Pieces(ch.buffer, ch.ticks[ch.pos..]);
      Advance(done, got, tail, decode, conv);
      chunks := chunks + out;
      done := done + got;
    }
    assert done + [] == done;
  }

  /** Moving what one pass yields from the rest of the stream to what has
      been yielded. */
  lemma Advance(done: seq<Piece>, got: seq<Piece>, tail: seq<Piece>,
                decode: seq<byte> -> string, conv: string -> string)
    ensures done + (got + tail) == (done + got) + tail
    ensures ShowAll(done + got, decode, conv) == ShowAll(done, decode, conv) + ShowAll(got, decode, conv)
  {
    ShowAllAppend(done, got, decode, conv);
  }

  lemma StopsNonEmpty(ticks: seq<Tick>)
    requires Stops(ticks)
    ensures ticks != []
  {
  }

  /** A script that stops, and does not stop at its first tick, still stops
      after it. */
  lemma StopsLater(ticks: seq<Tick>)
    requires Stops(ticks) && ticks[0].Tick? && !ticks[0].exited
    ensures Stops(ticks[1..])
  {
    var i :| 0 <= i < |ticks| && (ticks[i].Broken? || ticks[i].exited);
    assert ticks[1..][i - 1] == ticks[i];
  }

  // ---------------------------------------------------------------------
  // terminal_stream: the route and what the stream promises

  datatype StreamReply = Streamed(chunks: seq<string>) | StreamError(message: string)

  /** `terminal_stream`: the checks of the route, then the chunks `generate`
      yields for the command's session channel, fresh at the start. An
      exception while opening the session is a script whose first tick is
      broken. */
  method TerminalStream(connected: bool, cmd: string, ch: Channel,
                        decode: seq<byte> -> string, conv: string -> string)
    returns (r: StreamReply)
    requires ch.pos == 0 && ch.buffer == [] && !ch.exited && Stops(ch.ticks)
    modifies ch
    ensures !connected ==> r == StreamError("SSH not connected!")
    ensures connected && cmd == "" ==> r == StreamError("No command provided")
    ensures connected && cmd != "" ==> r == Streamed(ShowAll(Pieces([], ch.ticks), decode, conv))
  {
    if !connected {
      return StreamError("SSH not connected!");
    }
    if cmd == "" {
      return StreamError("No command provided");
    }
    assert ch.ticks[0..] == ch.ticks;
    var chunks := Generate(ch, decode, conv);
    return Streamed(chunks);
  }

  /** The bytes of the received blocks, in the order they were yielded. */
  function Bytes(ps: seq<Piece>): seq<byte>
  {
    if ps == [] then []
    else (if ps[0].Block? then ps[0].data else []) + Bytes(ps[1..])
  }

  /** The bytes that arrive on the channel up to the poll that ends the
      loop. */
  function Arrived(ticks: seq<Tick>): seq<byte>
  {
    if ticks == [] then []
    else match ticks[0]
      case Broken(_) => []
      case Tick(arrived, exited) => arrived + (if exited then [] else Arrived(ticks[1..]))
  }

  lemma {:induction false} BytesAppend(a: seq<Piece>, b: seq<Piece>)
    ensures Bytes(a + b) == Bytes(a) + Bytes(b)
  {
    if a == [] {
      assert a + b == b;
    } else {
      var h := if a[0].Block? then a[0].data else [];
      assert (a + b)[0] == a[0] && (a + b)[1..] == a[1..] + b;
      assert Bytes(a + b) == h + Bytes(a[1..] + b);
      BytesAppend(a[1..], b);
      assert Bytes(a) == h + Bytes(a[1..]);
    }
  }

  /** Every block the stream yields holds between 1 and 1024 bytes. */
  lemma {:induction false} BlockSizes(buf: seq<byte>, ticks: seq<Tick>)
    ensures forall i :: 0 <= i < |Pieces(buf, ticks)| && Pieces(buf, ticks)[i].Block? ==>
      1 <= |Pieces(buf, ticks)[i].data| <= BlockSize
    decreases |ticks|
  {
    if ticks != [] && ticks[0].Tick? {
      var b := buf + ticks[0].arrived;
      var n := Min(BlockSize, |b|);
      BlockSizes(b[n..], ticks[1..]);
    }
  }

  /** An error is the last thing the stream yields, and there is at most
      one. */
  lemma {:induction false} ErrorIsLast(buf: seq<byte>, ticks: seq<Tick>)
    ensures forall i :: 0 <= i < |Pieces(buf, ticks)| && Pieces(buf, ticks)[i].Failed? ==>
      i == |Pieces(buf, ticks)| - 1
    decreases |ticks|
  {
    if ticks != [] && ticks[0].Tick? {
      var b := buf + ticks[0].arrived;
      var n := Min(BlockSize, |b|);
      ErrorIsLast(b[n..], ticks[1..]);
      var got := if |b| > 0 then [Block(b[..n])] else [];
      if !ticks[0].exited {
        var ps := Pieces(buf, ticks);
        assert ps == got + Pieces(b[n..], ticks[1..]);
        forall i | 0 <= i < |ps| && ps[i].Failed? ensures i == |ps| - 1 {
          assert i >= |got|;
          assert ps[i] == Pieces(b[n..], ticks[1..])[i - |got|];
        }
      }
    }
  }

  /** The stream yields at most one block per poll. */
  lemma {:induction false} OneBlockPerPoll(buf: seq<byte>, ticks: seq<Tick>)
    ensures |Pieces(buf, ticks)| <= |ticks|
    decreases |ticks|
  {
    if ticks != [] && ticks[0].Tick? {
      var b := buf + ticks[0].arrived;
      var n := Min(BlockSize, |b|);
      OneBlockPerPoll(b[n..], ticks[1..]);
    }
  }

  /** What one poll yields holds the first `n` waiting bytes. */
  lemma PollBytes(b: seq<byte>, n: nat)
    requires n == Min(BlockSize, |b|)
    ensures Bytes(if |b| > 0 then [Block(b[..n])] else []) == b[..n]
  {
    if |b| > 0 {
      assert [Block(b[..n])][1..] == [];
    } else {
      assert b[..n] == [];
    }
  }

  lemma PrefixExtend(x: seq<byte>, y: seq<byte>, z: seq<byte>)
    requires y <= z
    ensures x + y <= x + z
  {
    assert (x + z)[..|x + y|] == x + y;
  }

  lemma Regroup(buf: seq<byte>, a: seq<byte>, n: nat, rest: seq<byte>)
    requires n <= |buf + a|
    ensures (buf + a)[..n] + ((buf + a)[n..] + rest) == buf + (a + rest)
  {
    var b := buf + a;
    assert b[..n] + b[n..] == b;
    assert b[..n] + (b[n..] + rest) == (b[..n] + b[n..]) + rest;
  }

  /** The stream neither reorders nor duplicates nor invents bytes: what it
      yields is a prefix of what was waiting followed by what arrived. */
  lemma {:induction false} BytesInOrder(buf: seq<byte>, ticks: seq<Tick>)
    ensures Bytes(Pieces(buf, ticks)) <= buf + Arrived(ticks)
    decreases |ticks|
  {
    if ticks != [] && ticks[0].Tick? {
      var b := buf + ticks[0].arrived;
      var n := Min(BlockSize, |b|);
      var got := if |b| > 0 then [Block(b[..n])] else [];
      PollBytes(b, n);
      PiecesTick(buf, ticks);
      if ticks[0].exited {
        assert Arrived(ticks) == ticks[0].arrived + [];
        PrefixExtend(b[..n], [], b[n..]);
        assert b[..n] + b[n..] == buf + Arrived(ticks);
      } else {
        var rest := Pieces(b[n..], ticks[1..]);
        BytesInOrder(b[n..], ticks[1..]);
        BytesAppend(got, rest);
        PrefixExtend(b[..n], Bytes(rest), b[n..] + Arrived(ticks[1..]));
        assert Arrived(ticks) == ticks[0].arrived + Arrived(ticks[1..]);
        Regroup(buf, ticks[0].arrived, n, Arrived(ticks[1..]));
      }
    }
  }

  /** When nothing was waiting and no poll brings more than 1024 bytes,
      every byte that arrives is yielded. */
  lemma {:induction false} SmallArrivalsAllYielded(ticks: seq<Tick>)
    requires forall i :: 0 <= i < |ticks| && ticks[i].Tick? ==> |ticks[i].arrived| <= BlockSize
    ensures Bytes(Pieces([], ticks)) == Arrived(ticks)
    decreases |ticks|
  {
    if ticks != [] && ticks[0].Tick? {
      var b := ticks[0].arrived;
      assert [] + b == b;
      var got := if |b| > 0 then [Block(b)] else [];
      assert Bytes(got) == b by {
        if |b| > 0 { assert got[1..] == []; }
      }
      assert b[..|b|] == b && b[|b|..] == [];
      if ticks[0].exited {
        assert Arrived(ticks) == b + [];
      } else {
        forall i | 0 <= i < |ticks[1..]| && ticks[1..][i].Tick?
          ensures |ticks[1..][i].arrived| <= BlockSize
        {
          assert ticks[1..][i] == ticks[i + 1];
        }
        SmallArrivalsAllYielded(ticks[1..]);
        BytesAppend(got, Pieces([], ticks[1..]));
      }
    }
  }

  /** Once the command has exited the loop stops, even with bytes still
      waiting: 2000 bytes that arrive together with the exit give a single
      block of 1024, and the other 976 are never yielded. */
  lemma ExitLeavesBytesWaiting()
    ensures var ps := Pieces([], [Tick(seq(2000, i => 7), true)]);
      ps == [Block(seq(1024, i => 7))] && |Bytes(ps)| == 1024
  {
    var b: seq<byte> := seq(2000, i => 7);
    assert [] + b == b;
    assert b[..1024] == seq(1024, i => 7);
    var ps := [Block(seq(1024, i => 7))];
    assert ps[1..] == [];
  }
}
