/** The splitter of NUL-terminated messages that a running shell task sends over a FIFO. */
module MessageFifo {
  import opened Wrappers

  type Bytes = seq<bv8>

  const NUL: bv8 := 0
  const SPACE: bv8 := 32

  // ----- what a stream of bytes says -----

  function IndexOf<T(==)>(s: seq<T>, c: T): (i: nat)
    ensures i <= |s| && c !in s[..i] && (i < |s| ==> s[i] == c)
  {
    if |s| == 0 || s[0] == c then 0
    else
      var i := 1 + IndexOf(s[1..], c);
      assert s[..i] == [s[0]] + s[1..][..i - 1];
      i
  }

  /** The messages that have ended. */
  function Pieces(s: Bytes): seq<Bytes>
    decreases |s|
  {
    var i := IndexOf(s, NUL);
    if i == |s| then [] else [s[..i]] + Pieces(s[i + 1..])
  }

  /** The message that has not. */
  function Tail(s: Bytes): Bytes
    decreases |s|
  {
    var i := IndexOf(s, NUL);
    if i == |s| then s else Tail(s[i + 1..])
  }

  function Terminated(ps: seq<Bytes>): Bytes {
    if |ps| == 0 then [] else ps[0] + [NUL] + Terminated(ps[1..])
  }

  lemma {:induction false} FirstNul(p: Bytes, rest: Bytes)
    requires NUL !in p
    ensures IndexOf(p + [NUL] + rest, NUL) == |p|
    ensures (p + [NUL] + rest)[..|p|] == p && (p + [NUL] + rest)[|p| + 1..] == rest
  {
    IndexUnique(p + [NUL] + rest, |p|);
  }

  lemma {:induction false} IndexUnique(s: Bytes, k: nat)
    requires k < |s| && s[k] == NUL && NUL !in s[..k]
    ensures IndexOf(s, NUL) == k
  {
    if k > 0 {
      assert s[0] == s[..k][0];
      assert s[1..][..k - 1] == s[..k][1..];
      IndexUnique(s[1..], k - 1);
    }
  }

  lemma NoIndex(s: Bytes)
    requires NUL !in s
    ensures IndexOf(s, NUL) == |s|
  {
    var i := IndexOf(s, NUL);
    assert forall k :: 0 <= k < |s| ==> s[k] != NUL;
  }

  lemma Assoc(a: Bytes, b: Bytes, c: Bytes)
    ensures (a + b) + c == a + (b + c)
  {
  }

  lemma TerminatedFirst(ps: seq<Bytes>, t: Bytes)
    requires ps != []
    ensures Terminated(ps) + t == ps[0] + [NUL] + (Terminated(ps[1..]) + t)
  {
    Assoc(ps[0] + [NUL], Terminated(ps[1..]), t);
  }

  /** `Pieces` and `Tail` undo termination, and no other split of the stream into NUL-free parts exists. */
  lemma {:induction false} SplitIsUnique(ps: seq<Bytes>, t: Bytes)
    requires NUL !in t && forall p <- ps :: NUL !in p
    ensures Pieces(Terminated(ps) + t) == ps && Tail(Terminated(ps) + t) == t
    decreases |ps|
  {
    if |ps| == 0 {
      assert Terminated(ps) + t == t;
      NoIndex(t);
    } else {
      TerminatedFirst(ps, t);
      FirstNul(ps[0], Terminated(ps[1..]) + t);
      SplitIsUnique(ps[1..], t);
    }
  }

  lemma {:induction false} SplitIsExact(s: Bytes)
    ensures Terminated(Pieces(s)) + Tail(s) == s
    ensures NUL !in Tail(s) && forall p <- Pieces(s) :: NUL !in p
    decreases |s|
  {
    hide Pieces, Tail, Terminated, IndexOf;
    if IndexOf(s, NUL) == |s| {
      LastStep(s);
    } else {
      Step(s);
      var rest := s[IndexOf(s, NUL) + 1..];
      SplitIsExact(rest);
      TerminatedFirst(Pieces(s), Tail(s));
      assert Pieces(s)[1..] == Pieces(rest);
    }
  }

  lemma Step(s: Bytes)
    requires IndexOf(s, NUL) < |s|
    ensures var i := IndexOf(s, NUL);
            Pieces(s) == [s[..i]] + Pieces(s[i + 1..]) && Tail(s) == Tail(s[i + 1..]) &&
            s == s[..i] + [NUL] + s[i + 1..]
  {
    Halves(s, IndexOf(s, NUL));
  }

  lemma Halves(s: Bytes, i: nat)
    requires i < |s| && s[i] == NUL
    ensures s == s[..i] + [NUL] + s[i + 1..]
  {
  }

  lemma LastStep(s: Bytes)
    requires IndexOf(s, NUL) == |s|
    ensures Pieces(s) == [] && Tail(s) == s && NUL !in s && Terminated([]) + s == s
  {
    assert s[..|s|] == s;
    assert Terminated([]) + s == s;
  }

  lemma {:induction false} TerminatedAppend(ps: seq<Bytes>, qs: seq<Bytes>)
    ensures Terminated(ps + qs) == Terminated(ps) + Terminated(qs)
  {
    if |ps| == 0 {
      assert ps + qs == qs;
    } else {
      TerminatedAppend(ps[1..], qs);
      assert (ps + qs)[1..] == ps[1..] + qs;
      Assoc(ps[0] + [NUL], Terminated(ps[1..]), Terminated(qs));
    }
  }

  /** Only what follows the last NUL matters to what comes next. */
  lemma MoreArrives(s: Bytes, data: Bytes)
    ensures Pieces(s + data) == Pieces(s) + Pieces(Tail(s) + data)
    ensures Tail(s + data) == Tail(Tail(s) + data)
  {
    hide Pieces, Tail, Terminated;
    var u := Tail(s) + data;
    SplitIsExact(s);
    SplitIsExact(u);
    TerminatedAppend(Pieces(s), Pieces(u));
    Assoc(Terminated(Pieces(s)), Tail(s), data);
    Assoc(Terminated(Pieces(s)), Terminated(Pieces(u)), Tail(u));
    SplitIsUnique(Pieces(s) + Pieces(u), Tail(u));
  }

  // ----- what a message does -----

  datatype Call =
    | BbPlain(value: string)
    | BbNote(value: string)
    | BbVerbNote(value: string)
    | BbWarn(value: string)
    | BbError(value: string, forcelog: bool)
    | BbDebug(level: int, value: string)
    | Unrecognised(cmd: string)

  /** `bytes.decode("utf-8")` and `int(str)`, either of which may raise. */
  datatype Library = Library(decode: Bytes -> Option<string>, toInt: string -> Option<int>)

  function Interpret(lib: Library, message: Bytes): Result<Call> {
    var i := IndexOf(message, SPACE);
    var cmd := lib.decode(message[..i]);
    var value := if i < |message| then lib.decode(message[i + 1..]) else Some("");
    if cmd.None? || value.None? then Raised
    else Named(lib, cmd.value, value.value)
  }

  function Named(lib: Library, cmd: string, value: string): Result<Call> {
    match cmd
    case "bbplain" => Ok(BbPlain(value))
    case "bbnote" => Ok(BbNote(value))
    case "bbverbnote" => Ok(BbVerbNote(value))
    case "bbwarn" => Ok(BbWarn(value))
    case "bberror" => Ok(BbError(value, false))
    case "bbfatal" => Ok(BbError(value, false))
    case "bbfatal_log" => Ok(BbError(value, true))
    case "bbdebug" =>
      var j := IndexOf(value, ' ');
      var level := lib.toInt(value[..j]);
      if level.None? || j == |value| then Raised else Ok(BbDebug(level.value, value[j + 1..]))
    case _ => Ok(Unrecognised(cmd))
  }

  /** How many messages are handled before one raises. */
  function Handled(lib: Library, ps: seq<Bytes>): (n: nat)
    ensures n <= |ps|
    ensures forall i :: 0 <= i < n ==> Interpret(lib, ps[i]).Ok?
    ensures n < |ps| ==> Interpret(lib, ps[n]).Raised?
  {
    if |ps| == 0 || Interpret(lib, ps[0]).Raised? then 0 else 1 + Handled(lib, ps[1..])
  }

  function Calls(lib: Library, ps: seq<Bytes>): (cs: seq<Call>)
    requires forall p <- ps :: Interpret(lib, p).Ok?
    ensures |cs| == |ps|
  {
    if |ps| == 0 then [] else [Interpret(lib, ps[0]).value] + Calls(lib, ps[1..])
  }

  lemma {:induction false} HandledUnique(lib: Library, ps: seq<Bytes>, n: nat)
    requires n <= |ps| && (forall i :: 0 <= i < n ==> Interpret(lib, ps[i]).Ok?)
    requires n < |ps| ==> Interpret(lib, ps[n]).Raised?
    ensures Handled(lib, ps) == n
  {
  }

  lemma {:induction false} CallsAppend(lib: Library, ps: seq<Bytes>, qs: seq<Bytes>)
    requires forall p <- ps + qs :: Interpret(lib, p).Ok?
    ensures forall p <- ps :: p in ps + qs
    ensures forall q <- qs :: q in ps + qs
    ensures Calls(lib, ps + qs) == Calls(lib, ps) + Calls(lib, qs)
  {
    forall q <- qs ensures q in ps + qs { assert (ps + qs)[|ps|..] == qs; }
    if |ps| == 0 {
      assert ps + qs == qs;
    } else {
      assert (ps + qs)[1..] == ps[1..] + qs;
      CallsAppend(lib, ps[1..], qs);
    }
  }

  // ----- the reader -----

  class Reader {
    const lib: Library
    var fifobuffer: Bytes
    var calls: seq<Call>
    ghost var received: Bytes

    /** What was handled and what is kept are fixed by the bytes received, however they were cut up. */
    ghost predicate Valid()
      reads this
    {
      var ps := Pieces(received);
      var n := Handled(lib, ps);
      && calls == Calls(lib, ps[..n])
      && fifobuffer == Terminated(ps[n..]) + Tail(received)
    }

    constructor (lib: Library)
      ensures Valid() && received == [] && this.lib == lib
    {
      this.lib, fifobuffer, calls, received := lib, [], [], [];
    }

    /** `readfifo`: it raises exactly when a message that has ended cannot be handled, and stops there. */
    method ReadFifo(data: Bytes) returns (r: Result<()>)
      requires Valid()
      modifies this
      ensures Valid() && received == old(received) + data
      ensures r.Ok? <==> Handled(lib, Pieces(received)) == |Pieces(received)|
      ensures r.Ok? ==> calls == Calls(lib, Pieces(received)) && fifobuffer == Tail(received)
    {
      hide Pieces, Tail, Terminated, Handled, Calls, Interpret;
      received := received + data;
      fifobuffer := fifobuffer + data;
      ghost var ps: seq<Bytes>, n: nat := Pieces(received), Handled(lib, Pieces(old(received)));
      Kept(old(received), data, n);
      SplitIsExact(received);
      while fifobuffer != []
        invariant received == old(received) + data
        invariant 0 <= n <= |ps| && (forall i :: 0 <= i < n ==> Interpret(lib, ps[i]).Ok?)
        invariant (forall p <- ps[..n] :: Interpret(lib, p).Ok?) && calls == Calls(lib, ps[..n])
        invariant fifobuffer == Terminated(ps[n..]) + Tail(received)
        invariant forall p <- ps[n..] :: NUL !in p
        decreases |fifobuffer|
      {
        var i := IndexOf(fifobuffer, NUL);
        NextMessage(fifobuffer, ps[n..], Tail(received));
        if i == |fifobuffer| {
          break;
        }
        var message, nextmsg := fifobuffer[..i], fifobuffer[i + 1..];
        var call := Interpret(lib, message);
        if call.Raised? {
          HandledUnique(lib, ps, n);
          return Raised;
        }
        calls := calls + [call.value];
        OneMoreCall(lib, ps, n);
        fifobuffer := nextmsg;
        n := n + 1;
      }
      NextMessage(fifobuffer, ps[n..], Tail(received));
      HandledUnique(lib, ps, n);
      assert ps[..n] == ps;
      r := Ok(());
    }

    lemma Kept(was: Bytes, data: Bytes, n: nat)
      requires n == Handled(lib, Pieces(was)) && received == was + data
      requires fifobuffer == Terminated(Pieces(was)[n..]) + Tail(was) + data
      ensures n <= |Pieces(received)| && Pieces(received)[..n] == Pieces(was)[..n]
      ensures forall i :: 0 <= i < n ==> Interpret(lib, Pieces(received)[i]).Ok?
      ensures fifobuffer == Terminated(Pieces(received)[n..]) + Tail(received)
    {
      hide Pieces, Tail, Terminated, Handled, Interpret;
      var u := Tail(was) + data;
      MoreArrives(was, data);
      SplitIsExact(u);
      assert Pieces(received)[n..] == Pieces(was)[n..] + Pieces(u);
      TerminatedAppend(Pieces(was)[n..], Pieces(u));
      Assoc(Terminated(Pieces(was)[n..]), Tail(was), data);
      Assoc(Terminated(Pieces(was)[n..]), Terminated(Pieces(u)), Tail(u));
    }
  }

  /** What `partition` finds in a buffer of messages and a tail. */
  lemma NextMessage(buffer: Bytes, ps: seq<Bytes>, t: Bytes)
    requires buffer == Terminated(ps) + t && NUL !in t && forall p <- ps :: NUL !in p
    ensures IndexOf(buffer, NUL) == |buffer| <==> ps == []
    ensures buffer == [] ==> ps == [] && t == []
    ensures ps == [] ==> buffer == t
    ensures ps != [] ==> buffer[..IndexOf(buffer, NUL)] == ps[0]
    ensures ps != [] ==> buffer[IndexOf(buffer, NUL) + 1..] == Terminated(ps[1..]) + t
  {
    if ps != [] {
      TerminatedFirst(ps, t);
      FirstNul(ps[0], Terminated(ps[1..]) + t);
    } else {
      assert buffer == t;
      NoIndex(t);
    }
  }

  lemma OneMoreCall(lib: Library, ps: seq<Bytes>, n: nat)
    requires n < |ps| && forall i :: 0 <= i <= n ==> Interpret(lib, ps[i]).Ok?
    ensures forall p <- ps[..n + 1] :: Interpret(lib, p).Ok?
    ensures Calls(lib, ps[..n + 1]) == Calls(lib, ps[..n]) + [Interpret(lib, ps[n]).value]
  {
    assert ps[..n + 1] == ps[..n] + [ps[n]];
    CallsAppend(lib, ps[..n], [ps[n]]);
  }

  function Concat(chunks: seq<Bytes>): Bytes {
    if |chunks| == 0 then [] else Concat(chunks[..|chunks| - 1]) + chunks[|chunks| - 1]
  }

  /** Any way of cutting the same bytes into reads handles the same messages and keeps the same rest. */
  method ReadAll(lib: Library, chunks: seq<Bytes>) returns (reader: Reader, ok: bool)
    ensures reader.lib == lib
    ensures var ps := Pieces(Concat(chunks));
            var n := Handled(lib, ps);
            && reader.calls == Calls(lib, ps[..n])
            && reader.fifobuffer == Terminated(ps[n..]) + Tail(Concat(chunks))
            && (ok <==> n == |ps|)
  {
    reader := new Reader(lib);
    ok := true;
    for i := 0 to |chunks|
      invariant fresh(reader) && reader.Valid() && reader.lib == lib && reader.received == Concat(chunks[..i])
      invariant ok <==> Handled(lib, Pieces(reader.received)) == |Pieces(reader.received)|
    {
      var r := reader.ReadFifo(chunks[i]);
      ok := r.Ok?;
      assert chunks[..i + 1][..i] == chunks[..i];
    }
    assert chunks[..|chunks|] == chunks;
  }
}
