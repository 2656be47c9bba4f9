/** The argument list on the wire (ipc.c): a count, a length, and the strings with their NULs. */
module Ipc {
  import opened Words

  type Byte = b: int | 0 <= b < 256

  const SIZEOF_INT: nat := 4
  const SIZEOF_SIZE_T: nat := 8
  const HEADER: nat := SIZEOF_INT + SIZEOF_SIZE_T

  predicate IsCString(s: seq<Byte>) {
    forall i :: 0 <= i < |s| ==> s[i] != 0
  }

  predicate AreCStrings(argv: seq<seq<Byte>>) {
    forall s :: s in argv ==> IsCString(s)
  }

  // ---------------------------------------------------------------- integers in memory

  function Power256(n: nat): nat {
    if n == 0 then 1 else 256 * Power256(n - 1)
  }

  /** The `width` bytes of an unsigned integer, least significant first. */
  function Bytes(value: nat, width: nat): (s: seq<Byte>)
    ensures |s| == width
  {
    if width == 0 then [] else [value % 256] + Bytes(value / 256, width - 1)
  }

  function Value(s: seq<Byte>): nat {
    if s == [] then 0 else s[0] + 256 * Value(s[1..])
  }

  lemma {:induction false} BytesRoundTrip(value: nat, width: nat)
    requires value < Power256(width)
    ensures Value(Bytes(value, width)) == value
  {
    if width > 0 {
      BytesRoundTrip(value / 256, width - 1);
    }
  }

  lemma Widths()
    ensures Power256(SIZEOF_INT) == U32 && Power256(SIZEOF_SIZE_T) == U32 * U32
  {
  }

  // ---------------------------------------------------------------- the message

  /** The strings, each with its terminator. */
  function Strings(argv: seq<seq<Byte>>): seq<Byte> {
    if argv == [] then [] else argv[0] + [0] + Strings(argv[1..])
  }

  function Wire(argv: seq<seq<Byte>>): seq<Byte> {
    Bytes(|argv|, SIZEOF_INT) + Bytes(HEADER + |Strings(argv)|, SIZEOF_SIZE_T) + Strings(argv)
  }

  datatype Errno = EIO | EINVAL | ENOMEM | Undefined

  /** `Ok` carries the strings, where each starts in the string buffer, and the unread stream. */
  datatype Received = Ok(argv: seq<seq<Byte>>, starts: seq<nat>, rest: seq<Byte>) | Failed(error: Errno)

  /** One `ipc_recv` with full reads: it needs at least one byte to succeed.  A stream that ends within
      the read leaves the rest of the variable as it was: outside of what is modelled. */
  function Recv(stream: seq<Byte>, len: nat): (error: Option<Errno>)
  {
    if len == 0 || stream == [] then Some(EIO)
    else if |stream| < len then Some(Undefined)
    else None
  }

  /** `strchr(buf + pos, '\0')` */
  function NextNul(buf: seq<Byte>, pos: nat): (p: nat)
    requires pos <= |buf|
    ensures pos <= p <= |buf|
    ensures forall i :: pos <= i < p ==> buf[i] != 0
    ensures p < |buf| ==> buf[p] == 0
    decreases |buf| - pos
  {
    if pos == |buf| || buf[pos] == 0 then pos else NextNul(buf, pos + 1)
  }

  /** The strings found, where they start, and where the walk ends. */
  datatype Walked = Lost | Walked(argv: seq<seq<Byte>>, starts: seq<nat>, end: nat)

  /** The walk over the string buffer: it is lost if a string has no terminator in the buffer. */
  function Walk(buf: seq<Byte>, pos: nat, argc: nat): Walked
    requires pos <= |buf|
    decreases argc
  {
    if argc == 0 then Walked([], [], pos)
    else
      var p := NextNul(buf, pos);
      if p == |buf| then Lost else Found([buf[pos..p]], [pos], Walk(buf, p + 1, argc - 1))
  }

  /** What has been found, followed by what the rest of a walk finds. */
  function Found(argv: seq<seq<Byte>>, starts: seq<nat>, later: Walked): Walked {
    if later.Lost? then Lost else Walked(argv + later.argv, starts + later.starts, later.end)
  }

  /** `ipc_recv_argv`; `alloc` is the outcome of `malloc`.  Counts and lengths no sender produces lead the
      code outside its buffer; they are `Undefined` here. */
  function Decode(stream: seq<Byte>, argMax: int, alloc: bool): Received {
    if Recv(stream, SIZEOF_INT).Some? then Failed(Recv(stream, SIZEOF_INT).value)
    else
      var argc := ToInt(Value(stream[..SIZEOF_INT]) % U32);
      var stream := stream[SIZEOF_INT..];
      if Recv(stream, SIZEOF_SIZE_T).Some? then Failed(Recv(stream, SIZEOF_SIZE_T).value)
      else
        var len := Value(stream[..SIZEOF_SIZE_T]);
        var stream := stream[SIZEOF_SIZE_T..];
        if argc > argMax then Failed(EINVAL)
        else if argc < 0 || len < HEADER then Failed(Undefined)
        else if !alloc then Failed(ENOMEM)
        else if Recv(stream, len - HEADER).Some? then Failed(Recv(stream, len - HEADER).value)
        else
          var walk := Walk(stream[..len - HEADER], 0, argc);
          if walk.Lost? then Failed(Undefined) else Ok(walk.argv, walk.starts, stream[len - HEADER..])
  }

  // ---------------------------------------------------------------- the round trip

  /** Where the strings start when they are laid out one after the other from `pos` on. */
  function Offsets(argv: seq<seq<Byte>>, pos: nat): seq<nat> {
    if argv == [] then [] else [pos] + Offsets(argv[1..], pos + |argv[0]| + 1)
  }

  lemma NextStringAt(buf: seq<Byte>, pos: nat, s: seq<Byte>)
    requires IsCString(s) && pos + |s| < |buf| && buf[pos..pos + |s|] == s && buf[pos + |s|] == 0
    ensures NextNul(buf, pos) == pos + |s|
  {
  }

  lemma FirstString(argv: seq<seq<Byte>>, buf: seq<Byte>, pos: nat)
    requires argv != [] && pos <= |buf| && buf[pos..] == Strings(argv)
    ensures var end := pos + |argv[0]|;
            end < |buf| && buf[pos..end] == argv[0] && buf[end] == 0 && buf[end + 1..] == Strings(argv[1..])
  {
  }

  /** The walk visits exactly the starts of the strings and ends at the end of the buffer. */
  lemma {:induction false} WalkStrings(argv: seq<seq<Byte>>, buf: seq<Byte>, pos: nat)
    requires AreCStrings(argv) && pos <= |buf| && buf[pos..] == Strings(argv)
    ensures Walk(buf, pos, |argv|) == Walked(argv, Offsets(argv, pos), |buf|)
    decreases |argv|
  {
    if argv != [] {
      var s, later := argv[0], argv[1..];
      assert s in argv;
      FirstString(argv, buf, pos);
      NextStringAt(buf, pos, s);
      WalkStrings(later, buf, pos + |s| + 1);
      FoundOne(argv, buf, pos);
      assert buf[pos..pos + |s|] == s;
      hide Strings, Offsets, Found, NextNul;
    }
  }

  lemma FoundOne(argv: seq<seq<Byte>>, buf: seq<Byte>, pos: nat)
    requires argv != []
    ensures Found([argv[0]], [pos], Walked(argv[1..], Offsets(argv[1..], pos + |argv[0]| + 1), |buf|))
         == Walked(argv, Offsets(argv, pos), |buf|)
  {
  }

  lemma {:induction false} StringsLength(argv: seq<seq<Byte>>)
    ensures argv != [] <==> |Strings(argv)| > 0
  {
  }

  lemma DecodeHeader(argv: seq<seq<Byte>>, rest: seq<Byte>, argMax: int, alloc: bool)
    requires |argv| < INT_LIMIT && HEADER + |Strings(argv)| < U32 * U32
    ensures var body := Strings(argv) + rest;
            Decode(Wire(argv) + rest, argMax, alloc) ==
            if |argv| > argMax then Failed(EINVAL)
            else if !alloc then Failed(ENOMEM)
            else if Strings(argv) == [] || body == [] then Failed(EIO)
            else
              var walk := Walk(Strings(argv), 0, |argv|);
              if walk.Lost? then Failed(Undefined) else Ok(walk.argv, walk.starts, rest)
  {
    hide Walk, Bytes, Value, Strings, Power256;
    var b := Strings(argv);
    var count, len := Bytes(|argv|, SIZEOF_INT), Bytes(HEADER + |b|, SIZEOF_SIZE_T);
    var stream := Wire(argv) + rest;
    Widths();
    BytesRoundTrip(|argv|, SIZEOF_INT);
    BytesRoundTrip(HEADER + |b|, SIZEOF_SIZE_T);
    assert stream[..SIZEOF_INT] == count;
    assert stream[SIZEOF_INT..] == len + b + rest;
    assert stream[SIZEOF_INT..][..SIZEOF_SIZE_T] == len;
    assert stream[SIZEOF_INT..][SIZEOF_SIZE_T..] == b + rest;
    assert (b + rest)[..|b|] == b && (b + rest)[|b|..] == rest;
  }

  /** The receiver gets the sender's list, and leaves the rest of the stream alone, if and only if the
      list has between one and ARG_MAX strings. */
  lemma WireRoundTrip(argv: seq<seq<Byte>>, rest: seq<Byte>, argMax: int, alloc: bool)
    requires AreCStrings(argv) && |argv| < INT_LIMIT && HEADER + |Strings(argv)| < U32 * U32
    ensures Decode(Wire(argv) + rest, argMax, alloc) == Ok(argv, Offsets(argv, 0), rest) <==>
            alloc && 1 <= |argv| <= argMax
    ensures |argv| > argMax ==> Decode(Wire(argv) + rest, argMax, alloc) == Failed(EINVAL)
    ensures |argv| == 0 <= argMax ==> Decode(Wire(argv) + rest, argMax, alloc) == Failed(if alloc then EIO else ENOMEM)
  {
    DecodeHeader(argv, rest, argMax, alloc);
    StringsLength(argv);
    assert Strings(argv)[0..] == Strings(argv);
    WalkStrings(argv, Strings(argv), 0);
  }

  lemma StringsFirst(argv: seq<seq<Byte>>)
    requires argv != []
    ensures Strings(argv) == argv[0] + [0] + Strings(argv[1..])
  {
  }

  lemma Associative<T>(a: seq<T>, b: seq<T>, c: seq<T>)
    ensures (a + b) + c == a + (b + c)
  {
  }

  lemma {:induction false} StringsConcat(s: seq<seq<Byte>>, t: seq<seq<Byte>>)
    ensures Strings(s + t) == Strings(s) + Strings(t)
  {
    if s == [] {
      assert s + t == t;
    } else {
      hide Strings;
      var first, later := s[0] + [0], Strings(s[1..]);
      StringsConcat(s[1..], t);
      assert (s + t)[0] == s[0] && (s + t)[1..] == s[1..] + t;
      StringsFirst(s);
      StringsFirst(s + t);
      Associative(first, later, Strings(t));
    }
  }

  /** The message, by byte numbers: four bytes for the count, eight for the length of the whole message,
      and then the strings in order, each with its terminator. */
  lemma WireLayout(argv: seq<seq<Byte>>, more: seq<seq<Byte>>, s: seq<Byte>)
    requires |argv| < U32 && |Wire(argv)| < U32 * U32
    ensures |Wire(argv)| >= 12
    ensures Value(Wire(argv)[..4]) == |argv| && Value(Wire(argv)[4..12]) == |Wire(argv)|
    ensures Wire([])[12..] == [] && Wire([s])[12..] == s + [0]
    ensures Wire(argv + more)[12..] == Wire(argv)[12..] + Wire(more)[12..]
  {
    hide Bytes, Value;
    Widths();
    BytesRoundTrip(|argv|, SIZEOF_INT);
    BytesRoundTrip(HEADER + |Strings(argv)|, SIZEOF_SIZE_T);
    assert Wire(argv)[..4] == Bytes(|argv|, SIZEOF_INT);
    assert Wire(argv)[4..12] == Bytes(HEADER + |Strings(argv)|, SIZEOF_SIZE_T);
    Payload([]);
    Payload([s]);
    Payload(argv);
    Payload(more);
    Payload(argv + more);
    StringsConcat(argv, more);
    assert Strings([s]) == s + [0] + [];
  }

  lemma Payload(argv: seq<seq<Byte>>)
    ensures |Wire(argv)| == 12 + |Strings(argv)| && Wire(argv)[12..] == Strings(argv)
  {
  }

  /** A peer that closes the connection before or between the two numbers. */
  lemma ClosedEarly(stream: seq<Byte>, argMax: int, alloc: bool)
    requires |stream| == 0 || |stream| == 4
    ensures Decode(stream, argMax, alloc) == Failed(EIO)
  {
  }

  // ---------------------------------------------------------------- the two ends

  /** One string more is laid out behind the first `n`. */
  lemma {:induction false} StringsSplit(argv: seq<seq<Byte>>, n: nat)
    requires n < |argv|
    ensures Strings(argv[..n + 1]) == Strings(argv[..n]) + argv[n] + [0]
    decreases |argv|
  {
    if n == 0 {
      assert argv[..1][1..] == [] && argv[..1][0] == argv[0];
    } else {
      StringsSplit(argv[1..], n - 1);
      assert argv[..n + 1][1..] == argv[1..][..n] && argv[..n][1..] == argv[1..][..n - 1];
    }
  }

  /** `ipc_send_argv`: first the lengths are summed up, then everything is appended to one buffer. */
  method SendArgv(argv: seq<seq<Byte>>, alloc: bool) returns (message: Option<seq<Byte>>)
    ensures message == if alloc then Some(Wire(argv)) else None
  {
    var lengths := new nat[|argv|];
    var bufSize := HEADER;
    var i := 0;
    assert argv[..0] == [];
    while i < |argv|
      invariant i <= |argv|
      invariant bufSize == HEADER + |Strings(argv[..i])|
      invariant forall j :: 0 <= j < i ==> lengths[j] == |argv[j]| + 1
    {
      StringsSplit(argv, i);
      lengths[i] := |argv[i]| + 1;
      bufSize := bufSize + lengths[i];
      i := i + 1;
    }
    assert argv[..|argv|] == argv;
    if !alloc {
      return None;
    }
    var wire := Bytes(|argv|, SIZEOF_INT) + Bytes(bufSize, SIZEOF_SIZE_T);
    i := 0;
    while i < |argv|
      invariant i <= |argv|
      invariant forall j :: 0 <= j < |argv| ==> lengths[j] == |argv[j]| + 1
      invariant wire == Bytes(|argv|, SIZEOF_INT) + Bytes(bufSize, SIZEOF_SIZE_T) + Strings(argv[..i])
    {
      StringsSplit(argv, i);
      wire := wire + (argv[i] + [0])[..lengths[i]];
      i := i + 1;
    }
    assert |wire| == bufSize;
    return Some(wire);
  }

  /** `ipc_recv_argv` */
  method RecvArgv(stream: seq<Byte>, argMax: int, alloc: bool) returns (r: Received)
    ensures r == Decode(stream, argMax, alloc)
  {
    var error := Recv(stream, SIZEOF_INT);
    if error.Some? {
      return Failed(error.value);
    }
    var argc := ToInt(Value(stream[..SIZEOF_INT]) % U32);
    var later := stream[SIZEOF_INT..];
    error := Recv(later, SIZEOF_SIZE_T);
    if error.Some? {
      return Failed(error.value);
    }
    var len := Value(later[..SIZEOF_SIZE_T]);
    later := later[SIZEOF_SIZE_T..];
    if argc > argMax {
      return Failed(EINVAL);
    }
    if argc < 0 || len < HEADER {
      return Failed(Undefined);
    }
    if !alloc {
      return Failed(ENOMEM);
    }
    error := Recv(later, len - HEADER);
    if error.Some? {
      return Failed(error.value);
    }
    var walk := WalkBuffer(later[..len - HEADER], argc);
    if walk.Lost? {
      return Failed(Undefined);
    }
    return Ok(walk.argv, walk.starts, later[len - HEADER..]);
  }

  lemma FoundEnds(argv: seq<seq<Byte>>, starts: seq<nat>, later: Walked, end: nat)
    ensures Found([], [], later) == later
    ensures Found(argv, starts, Walked([], [], end)) == Walked(argv, starts, end)
  {
  }

  lemma FoundTwice(argv: seq<seq<Byte>>, starts: seq<nat>, s: seq<Byte>, pos: nat, later: Walked)
    ensures Found(argv, starts, Found([s], [pos], later)) == Found(argv + [s], starts + [pos], later)
  {
  }

  /** The loop with the moving pointer. */
  method WalkBuffer(buf: seq<Byte>, argc: nat) returns (walk: Walked)
    ensures walk == Walk(buf, 0, argc)
  {
    var pos, i := 0, 0;
    var argv: seq<seq<Byte>>, starts: seq<nat> := [], [];
    FoundEnds([], [], Walk(buf, 0, argc), 0);
    while i < argc
      invariant i <= argc && pos <= |buf|
      invariant Walk(buf, 0, argc) == Found(argv, starts, Walk(buf, pos, argc - i))
    {
      var nul := NextNul(buf, pos);
      if nul == |buf| {
        return Lost;
      }
      FoundTwice(argv, starts, buf[pos..nul], pos, Walk(buf, nul + 1, argc - i - 1));
      argv := argv + [buf[pos..nul]];
      starts := starts + [pos];
      pos := nul + 1;
      i := i + 1;
    }
    FoundEnds(argv, starts, Lost, pos);
    return Walked(argv, starts, pos);
  }
}
