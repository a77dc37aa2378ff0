/** The synchronous engines of the swap store: loops that write or read a whole buffer through
    system calls that may transfer less than they were asked for, or be interrupted. */
module SyncIo {
  import opened SwapTypes

  /** How one call of `write` or `pread` ends; a transfer never exceeds what was asked for. */
  datatype Answer = Interrupted | Error(code: Code) | Transfers(count: nat)

  /** What a loop has come to: done, failed, or still running when the script of answers ends. */
  datatype Outcome = Finished | Stopped(code: Code) | Running

  class File {
    var contents: Bytes

    constructor ()
      ensures contents == []
    {
      contents := [];
    }
  }

  function Min(a: nat, b: nat): nat {
    if a < b then a else b
  }

  /** The outcome of a loop with `remaining` bytes to go, when at most `available` can be had. */
  function Run(script: seq<Answer>, remaining: nat, available: nat): Outcome
    decreases |script|
  {
    if remaining == 0 then Finished
    else if script == [] then Running
    else match script[0]
      case Interrupted => Run(script[1..], remaining, available)
      case Error(code) => Stopped(code)
      case Transfers(n) =>
        var k := Min(n, Min(remaining, available));
        if k == 0 then Stopped(IoError) else Run(script[1..], remaining - k, available - k)
  }

  /** How many bytes the answers transfer before the loop ends. */
  function Moved(script: seq<Answer>, remaining: nat, available: nat): (total: nat)
    ensures total <= remaining && total <= available
    ensures Run(script, remaining, available) == Finished <==> total == remaining
    decreases |script|
  {
    if remaining == 0 || script == [] then 0
    else match script[0]
      case Interrupted => Moved(script[1..], remaining, available)
      case Error(_) => 0
      case Transfers(n) =>
        var k := Min(n, Min(remaining, available));
        if k == 0 then 0 else k + Moved(script[1..], remaining - k, available - k)
  }

  /** How many bytes an answer transfers. */
  function Taken(answer: Answer, remaining: nat, available: nat): (k: nat)
    ensures k <= remaining && k <= available
  {
    if answer.Transfers? then Min(answer.count, Min(remaining, available)) else 0
  }

  /** What one answer does to a loop. */
  lemma {:induction false} OneAnswer(script: seq<Answer>, call: nat, remaining: nat, available: nat)
    requires call < |script| && remaining > 0
    ensures var now, rest, k := script[call..], script[call + 1..], Taken(script[call], remaining, available);
      if script[call].Error? then
        Run(now, remaining, available) == Stopped(script[call].code) && Moved(now, remaining, available) == 0
      else if script[call].Transfers? && k == 0 then
        Run(now, remaining, available) == Stopped(IoError) && Moved(now, remaining, available) == 0
      else
        && Run(now, remaining, available) == Run(rest, remaining - k, available - k)
        && Moved(now, remaining, available) == k + Moved(rest, remaining - k, available - k)
  {
    assert script[call..][1..] == script[call + 1..];
  }

  lemma {:induction false} NoAnswer(script: seq<Answer>, remaining: nat, available: nat)
    requires remaining == 0 || script == []
    ensures Run(script, remaining, available) == if remaining == 0 then Finished else Running
    ensures Moved(script, remaining, available) == 0
  {
  }

  /** Interruptions are invisible. */
  lemma {:induction false} InterruptionsDoNotMatter(script: seq<Answer>, n: nat, remaining: nat, available: nat)
    requires n <= |script|
    ensures Run(script[..n] + [Interrupted] + script[n..], remaining, available) == Run(script, remaining, available)
    ensures Moved(script[..n] + [Interrupted] + script[n..], remaining, available) == Moved(script, remaining, available)
    decreases n
  {
    var longer := script[..n] + [Interrupted] + script[n..];
    if n == 0 {
      assert longer == [Interrupted] + script;
    } else {
      var rest := script[1..];
      assert longer[1..] == rest[..n - 1] + [Interrupted] + rest[n - 1..];
      var k := if script[0].Transfers? then Min(script[0].count, Min(remaining, available)) else 0;
      InterruptionsDoNotMatter(rest, n - 1, remaining - k, available - k);
    }
  }

  /** A loop finishes if every call transfers something, there is enough to transfer and there are
      enough calls; it never finishes if there is not enough. */
  lemma {:induction false} ShortTransfersSuffice(script: seq<Answer>, remaining: nat, available: nat)
    requires forall i :: 0 <= i < |script| ==> script[i].Transfers? && script[i].count > 0
    requires |script| >= remaining
    ensures Run(script, remaining, available) == Finished <==> remaining <= available
    decreases |script|
  {
    if remaining > 0 {
      var k := Min(script[0].count, Min(remaining, available));
      if k > 0 {
        ShortTransfersSuffice(script[1..], remaining - k, available - k);
      }
    }
  }

  /** Writes the first `size` bytes of a buffer behind what the file holds. */
  method WriteFull(file: File, buffer: array<bv8>, size: nat, script: seq<Answer>) returns (outcome: Outcome)
    requires size <= buffer.Length
    modifies file
    ensures outcome == Run(script, size, size)
    ensures file.contents == old(file.contents) + buffer[..Moved(script, size, size)]
  {
    hide Run, Moved;
    var cursor: nat, remaining: nat, call: nat := 0, size, 0;
    while remaining > 0 && call < |script|
      invariant call <= |script| && cursor + remaining == size
      invariant file.contents == old(file.contents) + buffer[..cursor]
      invariant Run(script, size, size) == Run(script[call..], remaining, remaining)
      invariant Moved(script, size, size) == cursor + Moved(script[call..], remaining, remaining)
      decreases |script| - call
    {
      var answer := script[call];
      OneAnswer(script, call, remaining, remaining);
      call := call + 1;
      match answer {
        case Interrupted =>
        case Error(code) =>
          return Stopped(code);
        case Transfers(n) =>
          var ret := Min(n, remaining);
          if ret == 0 {
            return Stopped(IoError);
          }
          file.contents := file.contents + buffer[cursor..cursor + ret];
          assert buffer[..cursor + ret] == buffer[..cursor] + buffer[cursor..cursor + ret];
          cursor, remaining := cursor + ret, remaining - ret;
      }
    }
    NoAnswer(script[call..], remaining, remaining);
    outcome := if remaining == 0 then Finished else Running;
  }

  /** How much of a file is left from a position on. */
  function Left(contents: Bytes, offset: nat): nat {
    if offset <= |contents| then |contents| - offset else 0
  }

  /** The first `n` bytes of a file from a position on. */
  function Slice(contents: Bytes, offset: nat, n: nat): Bytes
    requires n <= Left(contents, offset)
  {
    if n == 0 then [] else contents[offset..offset + n]
  }

  lemma SliceMore(contents: Bytes, offset: nat, n: nat, more: nat)
    requires n + more <= Left(contents, offset) && more > 0
    ensures Slice(contents, offset, n + more) == Slice(contents, offset, n) + contents[offset + n..offset + n + more]
  {
  }

  /** One transfer from a file into a buffer. */
  method Pread(data: Bytes, offset: nat, buffer: array<bv8>, cursor: nat, count: nat)
    requires cursor + count <= buffer.Length && offset + count <= |data|
    modifies buffer
    ensures buffer[..cursor] == old(buffer[..cursor])
    ensures buffer[cursor..cursor + count] == data[offset..offset + count]
    ensures buffer[cursor + count..] == old(buffer[cursor + count..])
  {
    forall i | 0 <= i < count {
      buffer[cursor + i] := data[offset + i];
    }
  }

  /** Reads `size` bytes of a file into a buffer; nothing else of the buffer changes. */
  method ReadFull(file: File, buffer: array<bv8>, size: nat, offset: nat, script: seq<Answer>)
    returns (outcome: Outcome)
    requires size <= buffer.Length
    modifies buffer
    ensures var available := Left(file.contents, offset);
      && outcome == Run(script, size, available)
      && var got := Moved(script, size, available);
         buffer[..got] == Slice(file.contents, offset, got) && buffer[got..] == old(buffer[got..])
  {
    hide Run, Moved;
    var data := file.contents;
    var cursor: nat, remaining: nat, call: nat := 0, size, 0;
    ghost var available := Left(data, offset);
    while remaining > 0 && call < |script|
      invariant call <= |script| && cursor + remaining == size && cursor <= available
      invariant buffer[..cursor] == Slice(data, offset, cursor) && buffer[cursor..] == old(buffer[cursor..])
      invariant Run(script, size, available) == Run(script[call..], remaining, available - cursor)
      invariant Moved(script, size, available) == cursor + Moved(script[call..], remaining, available - cursor)
      decreases |script| - call
    {
      var answer := script[call];
      OneAnswer(script, call, remaining, available - cursor);
      call := call + 1;
      match answer {
        case Interrupted =>
        case Error(code) =>
          return Stopped(code);
        case Transfers(n) =>
          var ret := Min(n, Min(remaining, Left(data, offset + cursor)));
          if ret == 0 {
            return Stopped(IoError);
          }
          Pread(data, offset + cursor, buffer, cursor, ret);
          assert buffer[..cursor + ret] == buffer[..cursor] + buffer[cursor..cursor + ret];
          assert old(buffer[cursor + ret..]) == old(buffer[cursor..])[ret..];
          SliceMore(data, offset, cursor, ret);
          cursor, remaining := cursor + ret, remaining - ret;
      }
    }
    NoAnswer(script[call..], remaining, available - cursor);
    outcome := if remaining == 0 then Finished else Running;
  }

  /** Reading a swap file into a caller's buffer; `addr` is the buffer's address. */
  method ReadSwapFile(file: File, buffer: array<bv8>, addr: nat, size: nat, offset: nat, useDirectIo: bool,
                      open: Code, script: seq<Answer>)
    returns (outcome: Outcome)
    requires size <= buffer.Length
    modifies buffer
    ensures size == 0 ==> outcome == Stopped(Inval)
    ensures size > 0 && useDirectIo && !IsDioAligned(addr, size) ==> outcome == Stopped(DioAlign)
    ensures size > 0 && (useDirectIo ==> IsDioAligned(addr, size)) ==>
              outcome == if open != Ok then Stopped(open) else Run(script, size, Left(file.contents, offset))
    ensures outcome == Finished ==>
              offset + size <= |file.contents| && buffer[..size] == file.contents[offset..offset + size]
    ensures buffer[size..] == old(buffer[size..])
  {
    if size == 0 {
      return Stopped(Inval);
    }
    if useDirectIo && !IsDioAligned(addr, size) {
      return Stopped(DioAlign);
    }
    if open != Ok {
      return Stopped(open);
    }
    outcome := ReadFull(file, buffer, size, offset, script);
    ghost var got := Moved(script, size, Left(file.contents, offset));
    assert buffer[size..] == buffer[got..][size - got..];
    assert old(buffer[size..]) == old(buffer[got..])[size - got..];
  }

  /** Writing a swap file, which opening it has truncated. */
  method WriteSwapFile(file: File, buffer: array<bv8>, size: nat, open: Code, script: seq<Answer>, fsync: Code)
    returns (outcome: Outcome)
    requires size <= buffer.Length
    modifies file
    ensures size == 0 ==> outcome == Stopped(Inval) && file.contents == old(file.contents)
    ensures size > 0 && open != Ok ==> outcome == Stopped(open) && file.contents == old(file.contents)
    ensures size > 0 && open == Ok ==>
              && file.contents == buffer[..Moved(script, size, size)]
              && outcome == if Run(script, size, size) == Finished && fsync != Ok then Stopped(fsync)
                            else Run(script, size, size)
    ensures outcome == Finished ==> file.contents == buffer[..size]
  {
    if size == 0 {
      return Stopped(Inval);
    }
    if open != Ok {
      return Stopped(open);
    }
    file.contents := [];
    outcome := WriteFull(file, buffer, size, script);
    if outcome == Finished && fsync != Ok {
      return Stopped(fsync);
    }
  }

  /** What was written is what is read back, however the transfers were cut up. */
  method WriteThenRead(file: File, data: array<bv8>, buffer: array<bv8>, outward: seq<Answer>, inward: seq<Answer>)
    returns (written: Outcome, read: Outcome)
    requires buffer != data && data.Length <= buffer.Length && data.Length > 0
    modifies file, buffer
    ensures written == Finished && read == Finished ==>
              buffer[..data.Length] == data[..] && buffer[data.Length..] == old(buffer[data.Length..])
  {
    written := WriteSwapFile(file, data, data.Length, Ok, outward, Ok);
    read := ReadSwapFile(file, buffer, 0, data.Length, 0, false, Ok, inward);
    assert data[..data.Length] == data[..];
  }
}
