/** The length-prefixed stream (internal/adapters/framed/codec.go), over readers that fragment and
    writers that write short in any way. */
module Framed {
  import opened Slices

  type byte = x: nat | x < 256 witness 0

  const MAX_INPUT_PAYLOAD := 0x100_0000
  const MAX_OUTPUT_PAYLOAD := 0x400_0000
  const HEADER := 4

  // ----- what a stream means

  /** binary.BigEndian.PutUint32. */
  function BigEndian(n: nat): (bytes: seq<byte>)
    requires n < 0x1_0000_0000
    ensures |bytes| == HEADER
  {
    [n / 0x100_0000, n / 0x1_0000 % 0x100, n / 0x100 % 0x100, n % 0x100]
  }

  /** binary.BigEndian.Uint32. */
  function FromBigEndian(bytes: seq<byte>): nat
    requires |bytes| == HEADER
  {
    var b0: nat, b1: nat, b2: nat, b3: nat := bytes[0], bytes[1], bytes[2], bytes[3];
    b0 * 0x100_0000 + b1 * 0x1_0000 + b2 * 0x100 + b3
  }

  lemma {:induction false} BigEndianInverse(n: nat)
    requires n < 0x1_0000_0000
    ensures FromBigEndian(BigEndian(n)) == n
  {
    assert n / 0x100 == n / 0x1_0000 * 0x100 + n / 0x100 % 0x100;
    assert n / 0x1_0000 == n / 0x100_0000 * 0x100 + n / 0x1_0000 % 0x100;
  }

  /** a comes before b in the order that looks at the first byte first. */
  predicate BytesBefore(a: seq<byte>, b: seq<byte>) {
    exists k :: 0 <= k < |a| && k < |b| && a[..k] == b[..k] && a[k] < b[k]
  }

  /** The most significant byte comes first: larger lengths have later prefixes. Only one encoding into
      four bytes orders all lengths so. */
  lemma {:induction false} BigEndianOrder(m: nat, n: nat)
    requires m < n < 0x1_0000_0000
    ensures BytesBefore(BigEndian(m), BigEndian(n))
  {
    hide BigEndian, FromBigEndian, BytesBefore;
    BigEndianInverse(m);
    BigEndianInverse(n);
    FirstByteFirst(BigEndian(m), BigEndian(n));
  }

  lemma {:induction false} FirstByteFirst(a: seq<byte>, b: seq<byte>)
    requires |a| == HEADER && |b| == HEADER && FromBigEndian(a) < FromBigEndian(b)
    ensures BytesBefore(a, b)
  {
    var k := if a[0] != b[0] then 0 else if a[1] != b[1] then 1 else if a[2] != b[2] then 2 else 3;
    assert a[..k] == b[..k] && a[k] < b[k];
  }

  function Encode(payload: seq<byte>): (frame: seq<byte>)
    requires |payload| <= MAX_OUTPUT_PAYLOAD
    ensures |frame| == HEADER + |payload|
  {
    BigEndian(|payload|) + payload
  }

  datatype Step = Frame(payload: seq<byte>, rest: seq<byte>) | End | Broken

  /** The next frame of a stream: a clean end only at a frame boundary. */
  function Next(s: seq<byte>): Step {
    if s == [] then End
    else if |s| < HEADER then Broken
    else
      var size := FromBigEndian(s[..HEADER]);
      if size > MAX_INPUT_PAYLOAD || |s| - HEADER < size then Broken
      else Frame(s[HEADER..HEADER + size], s[HEADER + size..])
  }

  /** All complete frames of a stream, and whether it ends cleanly after them. */
  function Frames(s: seq<byte>): (seq<seq<byte>>, bool)
    decreases |s|
  {
    match Next(s)
    case End => ([], true)
    case Broken => ([], false)
    case Frame(payload, rest) => var more := Frames(rest); ([payload] + more.0, more.1)
  }

  predicate Readable(ps: seq<seq<byte>>) {
    forall i :: 0 <= i < |ps| ==> |ps[i]| <= MAX_INPUT_PAYLOAD
  }

  predicate Writable(ps: seq<seq<byte>>) {
    forall i :: 0 <= i < |ps| ==> |ps[i]| <= MAX_OUTPUT_PAYLOAD
  }

  function Stream(ps: seq<seq<byte>>): seq<byte>
    requires Writable(ps)
  {
    if ps == [] then [] else Encode(ps[0]) + Stream(ps[1..])
  }

  /** A frame that is there in full is read back, whatever follows. */
  lemma {:induction false} NextOfFrame(p: seq<byte>, rest: seq<byte>)
    requires |p| <= MAX_INPUT_PAYLOAD
    ensures Next(Encode(p) + rest) == Frame(p, rest)
  {
    hide BigEndian, FromBigEndian;
    BigEndianInverse(|p|);
    var s := Encode(p) + rest;
    assert s[..HEADER] == BigEndian(|p|);
    assert s[HEADER..HEADER + |p|] == p;
    assert s[HEADER + |p|..] == rest;
  }

  /** A frame cut anywhere but at its start is an error. */
  lemma {:induction false} NextOfCut(p: seq<byte>, cut: nat)
    requires |p| <= MAX_INPUT_PAYLOAD && 0 < cut < |Encode(p)|
    ensures Next(Encode(p)[..cut]) == Broken
  {
    hide BigEndian, FromBigEndian;
    BigEndianInverse(|p|);
    var s := Encode(p)[..cut];
    if cut >= HEADER { assert s[..HEADER] == BigEndian(|p|); }
  }

  /** Both limits: up to 16 MiB a frame is read back, up to 64 MiB it can be written, and what lies
      between can be written and not read. */
  lemma {:induction false} ReadLimit(p: seq<byte>, rest: seq<byte>)
    requires |p| <= MAX_OUTPUT_PAYLOAD
    ensures |p| <= 67108864
    ensures |p| <= 16777216 ==> Next(Encode(p) + rest) == Frame(p, rest)
    ensures |p| > 16777216 ==> Next(Encode(p) + rest) == Broken
  {
    hide BigEndian, FromBigEndian;
    if |p| <= MAX_INPUT_PAYLOAD {
      NextOfFrame(p, rest);
    } else {
      BigEndianInverse(|p|);
      assert (Encode(p) + rest)[..HEADER] == BigEndian(|p|);
    }
  }

  lemma {:induction false} NextOfNothing()
    ensures Next([]) == End
  {}

  /** Round trip: what was written is read back, then a clean end. */
  lemma {:induction false} StreamRoundTrip(ps: seq<seq<byte>>)
    requires Readable(ps)
    ensures Frames(Stream(ps)) == (ps, true)
  {
    hide Encode, Next;
    if ps != [] {
      NextOfFrame(ps[0], Stream(ps[1..]));
      StreamRoundTrip(ps[1..]);
      assert [ps[0]] + ps[1..] == ps;
    } else {
      NextOfNothing();
    }
  }

  /** Cutting the stream inside frame k leaves the k complete frames and then an error; cutting it at
      a boundary leaves a clean end. */
  lemma {:induction false} CutStream(ps: seq<seq<byte>>, k: nat, cut: nat)
    requires Readable(ps) && k <= |ps| && |Stream(ps[..k])| <= cut <= |Stream(ps)|
    requires k < |ps| ==> cut < |Stream(ps[..k])| + |Encode(ps[k])|
    ensures Frames(Stream(ps)[..cut]) == (ps[..k], cut == |Stream(ps[..k])|)
  {
    hide Encode, Next;
    if k == 0 {
      assert Stream(ps[..0]) == [];
      CutFirst(ps, cut);
    } else {
      var tail := ps[1..];
      var size := |Encode(ps[0])|;
      assert ps[..k][1..] == tail[..k - 1];
      assert |Stream(ps[..k])| == size + |Stream(tail[..k - 1])|;
      CutStream(tail, k - 1, cut - size);
      assert Stream(ps)[..cut] == Encode(ps[0]) + Stream(tail)[..cut - size];
      NextOfFrame(ps[0], Stream(tail)[..cut - size]);
      assert ps[..k] == [ps[0]] + tail[..k - 1];
    }
  }

  lemma {:induction false} CutFirst(ps: seq<seq<byte>>, cut: nat)
    requires Readable(ps) && cut <= |Stream(ps)| && (ps != [] ==> cut < |Encode(ps[0])|)
    ensures Frames(Stream(ps)[..cut]) == ([], cut == 0)
  {
    hide Encode;
    if cut > 0 {
      assert Stream(ps)[..cut] == Encode(ps[0])[..cut];
      NextOfCut(ps[0], cut);
    }
  }

  /** Wherever a stream is cut, what can be read is a number of whole frames. */
  lemma {:induction false} CutAnywhere(ps: seq<seq<byte>>, cut: nat) returns (k: nat)
    requires Readable(ps) && cut <= |Stream(ps)|
    ensures k <= |ps| && |Stream(ps[..k])| <= cut
    ensures k < |ps| ==> cut < |Stream(ps[..k])| + |Encode(ps[k])|
    ensures Frames(Stream(ps)[..cut]) == (ps[..k], cut == |Stream(ps[..k])|)
  {
    hide Encode, Frames;
    k := 0;
    assert Stream(ps[..0]) == [];
    while k < |ps| && |Stream(ps[..k])| + |Encode(ps[k])| <= cut
      invariant k <= |ps| && |Stream(ps[..k])| <= cut
    {
      assert ps[..k + 1] == ps[..k] + [ps[k]];
      StreamAppend(ps[..k], ps[k]);
      k := k + 1;
    }
    CutStream(ps, k, cut);
  }

  lemma {:induction false} StreamJoin(ps: seq<seq<byte>>, qs: seq<seq<byte>>)
    requires Writable(ps) && Writable(qs)
    ensures Stream(ps + qs) == Stream(ps) + Stream(qs)
  {
    hide Encode;
    if ps == [] {
      assert [] + qs == qs && Stream(ps) + Stream(qs) == Stream(qs);
    } else {
      assert (ps + qs)[1..] == ps[1..] + qs;
      StreamJoin(ps[1..], qs);
    }
  }

  lemma {:induction false} StreamAppend(ps: seq<seq<byte>>, p: seq<byte>)
    requires Writable(ps) && |p| <= MAX_OUTPUT_PAYLOAD
    ensures Stream(ps + [p]) == Stream(ps) + Encode(p)
  {
    hide Encode;
    StreamJoin(ps, [p]);
    assert Stream([p]) == Encode(p) + Stream([]);
  }

  // ----- reading

  /** One reply of a reader: at most so many bytes, with or without a fault beside them. */
  datatype Arrival = Arrival(count: nat, fault: bool)

  datatype Status = More | EndOfInput | Fault

  predicate Suffix(was: seq<Arrival>, now: seq<Arrival>) {
    |now| <= |was| && now == was[|was| - |now|..]
  }

  /** The last reply taken was a fault. */
  predicate StoppedBy(was: seq<Arrival>, now: seq<Arrival>) {
    Suffix(was, now) && |now| < |was| && was[|was| - |now| - 1].fault
  }

  lemma {:induction false} SuffixTransitive(was: seq<Arrival>, then': seq<Arrival>, now: seq<Arrival>)
    requires Suffix(was, then') && Suffix(then', now)
    ensures Suffix(was, now) && (StoppedBy(then', now) ==> StoppedBy(was, now))
  {}

  predicate Quiet(script: seq<Arrival>) {
    forall i :: 0 <= i < |script| ==> !script[i].fault
  }

  lemma {:induction false} FaultIsLoud(was: seq<Arrival>, now: seq<Arrival>)
    ensures StoppedBy(was, now) ==> !Quiet(was)
  {}

  /** A reader that hands out its bytes in pieces of its own choosing, possibly empty ones, and reports
      faults when it likes; when its script is over it hands out whatever is asked for. */
  class Source {
    var rest: seq<byte>
    var script: seq<Arrival>

    constructor (bytes: seq<byte>, script: seq<Arrival>)
      ensures rest == bytes && this.script == script
    {
      this.rest, this.script := bytes, script;
    }

    method Read(max: nat) returns (chunk: seq<byte>, status: Status)
      modifies this
      ensures |chunk| <= max && chunk + rest == old(rest)
      ensures status == EndOfInput ==> rest == []
      ensures old(script) == [] ==> script == [] && status != Fault && (rest == [] || |chunk| == max)
      ensures old(script) != [] ==> script == old(script)[1..] && (status == Fault <==> old(script)[0].fault)
      ensures old(script) == [] && old(rest) == [] ==> status == EndOfInput
    {
      var n := max;
      status := if rest == [] then EndOfInput else More;
      if script != [] {
        if script[0].count < n { n := script[0].count; }
        if script[0].fault { status := Fault; }
        script := script[1..];
      }
      if n > |rest| { n := |rest|; }
      chunk, rest := rest[..n], rest[n..];
    }

    /** io.ReadFull: a fault beside the last bytes asked for is dropped, any other stops it. */
    method ReadFull(size: nat) returns (got: seq<byte>, status: Status)
      modifies this
      ensures |got| <= size && got + rest == old(rest) && Suffix(old(script), script)
      ensures status == More <==> |got| == size
      ensures status == EndOfInput ==> rest == []
      ensures status == Fault ==> StoppedBy(old(script), script)
    {
      hide StoppedBy, Suffix;
      got, status := [], More;
      SuffixStart(script);
      while |got| < size && status == More
        invariant |got| <= size && got + rest == old(rest) && Suffix(old(script), script)
        invariant status == EndOfInput ==> rest == []
        invariant status == Fault ==> StoppedBy(old(script), script)
        decreases |script|, status == More, |rest|
      {
        ghost var was, before := script, rest;
        var chunk;
        chunk, status := Read(size - |got|);
        got := got + chunk;
        SuffixNext(old(script), was, script);
      }
      if |got| == size { status := More; }
    }
  }

  lemma {:induction false} SuffixStart(script: seq<Arrival>)
    ensures Suffix(script, script)
  {}

  lemma {:induction false} SuffixNext(was: seq<Arrival>, then': seq<Arrival>, now: seq<Arrival>)
    requires Suffix(was, then') && now == if then' == [] then [] else then'[1..]
    ensures Suffix(was, now)
    ensures then' != [] && then'[0].fault ==> StoppedBy(was, now)
  {}

  /** The reader owns its payload storage and uses it again. */
  class FrameReader {
    var payload: Slice<byte>

    constructor ()
    {
      payload := Slice([], []);
    }

    /** FrameReader.Read: the next frame of the source's bytes, however they arrive; only a fault of the
        source makes it fail where there is a frame or a clean end. */
    method Read(source: Source) returns (step: Step)
      modifies this, source
      ensures step == Next(old(source.rest)) || (step == Broken && StoppedBy(old(source.script), source.script))
      ensures Suffix(old(source.script), source.script)
      ensures step.Frame? ==> source.rest == step.rest && payload.items == step.payload
    {
      hide FromBigEndian, StoppedBy, Suffix;
      ghost var s, script := source.rest, source.script;
      var header, status := source.ReadFull(HEADER);
      if status != More { return if status == EndOfInput && header == [] then End else Broken; }
      assert header == s[..HEADER];
      var size := FromBigEndian(header);
      if size > MAX_INPUT_PAYLOAD { return Broken; }
      payload := if payload.Cap() < size then Slice(Fill(size, 0), []) else payload.Reslice(size);
      ghost var after := source.script;
      var bytes;
      bytes, status := source.ReadFull(size);
      SuffixTransitive(script, after, source.script);
      if status != More { return Broken; }
      assert s[HEADER..] == bytes + source.rest;
      payload := Slice(bytes, payload.spare);
      step := Frame(bytes, source.rest);
    }

    /** The read loop of a worker: every complete frame in order, and whether the end was clean; when a
        fault stops it, the frames that came before. */
    method ReadAll(source: Source) returns (payloads: seq<seq<byte>>, clean: bool)
      modifies this, source
      ensures (payloads, clean) == Frames(old(source.rest))
           || (!clean && payloads <= Frames(old(source.rest)).0 && StoppedBy(old(source.script), source.script))
    {
      hide Next, StoppedBy, Suffix;
      payloads := [];
      ghost var whole := Frames(source.rest);
      assert [] + whole.0 == whole.0;
      SuffixStart(source.script);
      while true
        invariant whole.0 == payloads + Frames(source.rest).0 && whole.1 == Frames(source.rest).1
        invariant Suffix(old(source.script), source.script)
        decreases |source.rest|
      {
        FrameShrinks(source.rest);
        ghost var more, script := Frames(source.rest), source.script;
        var step := Read(source);
        SuffixTransitive(old(source.script), script, source.script);
        assert payloads + [] == payloads;
        if step == End { return payloads, true; }
        if step == Broken { return payloads, false; }
        assert payloads + ([step.payload] + Frames(source.rest).0) == payloads + [step.payload] + Frames(source.rest).0;
        payloads := payloads + [step.payload];
      }
    }
  }

  lemma {:induction false} FrameShrinks(s: seq<byte>)
    ensures Next(s).Frame? ==> |Next(s).rest| < |s|
    ensures Frames(s) == match Next(s)
      case End => ([], true)
      case Broken => ([], false)
      case Frame(payload, rest) => ([payload] + Frames(rest).0, Frames(rest).1)
  {}

  // ----- writing

  /** One reply of a writer: the count it reports, and whether it also reports an error. */
  datatype Answer = Answer(count: int, fails: bool)

  /** A writer that answers as it likes; when its script is over it writes everything. */
  class Sink {
    var written: seq<byte>
    var script: seq<Answer>

    constructor (script: seq<Answer>)
      ensures written == [] && this.script == script
    {
      this.written, this.script := [], script;
    }

    /** The bytes that the reported count covers arrive; an impossible count delivers none. */
    method Write(payload: seq<byte>) returns (count: int, fails: bool)
      modifies this
      ensures old(script) == [] ==> count == |payload| && !fails && script == []
      ensures old(script) != [] ==> Answer(count, fails) == old(script)[0] && script == old(script)[1..]
      ensures written == if 0 <= count <= |payload| then old(written) + payload[..count] else old(written)
    {
      count, fails := |payload|, false;
      if script != [] {
        count, fails := script[0].count, script[0].fails;
        script := script[1..];
      }
      if 0 <= count <= |payload| { written := written + payload[..count]; }
    }
  }

  /** The script delivers all of a payload of this size: every answer until then takes some bytes, no
      more than were offered, and reports no error. */
  predicate Delivers(script: seq<Answer>, size: nat)
    decreases |script|
  {
    size == 0 || script == []
    || (1 <= script[0].count <= size && !script[0].fails && Delivers(script[1..], size - script[0].count))
  }

  /** The first k answers take some bytes each and report no error. */
  predicate AllTake(script: seq<Answer>, k: nat)
    requires k <= |script|
  {
    forall i :: 0 <= i < k ==> script[i].count >= 1 && !script[i].fails
  }

  function Taken(script: seq<Answer>): int {
    if script == [] then 0 else script[0].count + Taken(script[1..])
  }

  /** After k good answers exactly size bytes are taken, or no more than that and the script is over. */
  predicate DeliversBy(script: seq<Answer>, size: nat, k: nat) {
    && k <= |script| && AllTake(script, k)
    && (Taken(script[..k]) == size || (k == |script| && Taken(script) <= size))
  }

  /** A payload is delivered exactly when good answers come to its size, or last as long as the script. */
  lemma {:induction false} DeliversExactly(script: seq<Answer>, size: nat)
    ensures Delivers(script, size) <==> exists k: nat :: DeliversBy(script, size, k)
    decreases |script|
  {
    if size == 0 {
      assert script[..0] == [] && DeliversBy(script, size, 0);
    } else if script == [] {
      assert DeliversBy(script, size, 0);
    } else {
      var n := size - script[0].count;
      if 1 <= script[0].count <= size && !script[0].fails {
        DeliversExactly(script[1..], n);
        if Delivers(script[1..], n) {
          var k: nat :| DeliversBy(script[1..], n, k);
          DeliversShift(script, size, k);
        }
      }
      if k: nat :| DeliversBy(script, size, k) {
        TakenSome(script, size, k);
        DeliversShift(script, size, k - 1);
      }
    }
  }

  lemma {:induction false} DeliversShift(script: seq<Answer>, size: nat, k: nat)
    requires script != [] && 1 <= script[0].count <= size && !script[0].fails && k < |script|
    ensures DeliversBy(script[1..], size - script[0].count, k) <==> DeliversBy(script, size, k + 1)
  {
    var rest := script[1..];
    assert script[..k + 1] == [script[0]] + rest[..k] && script[..k + 1][1..] == rest[..k];
    assert forall i :: 0 <= i < k ==> rest[i] == script[i + 1];
    assert forall i :: 0 < i < k + 1 ==> script[i] == rest[i - 1];
  }

  lemma {:induction false} TakenSome(script: seq<Answer>, size: nat, k: nat)
    requires size > 0 && script != [] && DeliversBy(script, size, k)
    ensures k > 0 && 1 <= script[0].count <= size && !script[0].fails
  {
    assert script[..0] == [];
    if k > 0 {
      var rest := script[..k][1..];
      assert forall i :: 0 <= i < |rest| ==> rest[i] == script[i + 1];
      TakenPositive(rest);
      if k == |script| { assert script[..k] == script; }
    }
  }

  lemma {:induction false} TakenPositive(script: seq<Answer>)
    requires AllTake(script, |script|)
    ensures Taken(script) >= |script|
  {
    if script != [] { TakenPositive(script[1..]); }
  }

  /** How many of size bytes arrive before the first answer that stops the writing. */
  function Sent(script: seq<Answer>, size: nat): (n: nat)
    ensures n <= size && (Delivers(script, size) ==> n == size)
    decreases |script|
  {
    if size == 0 || script == [] then size
    else
      var a := script[0];
      if !(0 <= a.count <= size) then 0
      else if a.fails || a.count == 0 then a.count
      else a.count + Sent(script[1..], size - a.count)
  }

  /** The answers that are left after offering size bytes. */
  function After(script: seq<Answer>, size: nat): seq<Answer>
    decreases |script|
  {
    if size == 0 || script == [] then script
    else if script[0].fails || !(1 <= script[0].count <= size) then script[1..]
    else After(script[1..], size - script[0].count)
  }

  /** One more answer. */
  lemma {:induction false} WriteStep(script: seq<Answer>, size: nat)
    ensures size == 0 || script == [] ==>
      Delivers(script, size) && Sent(script, size) == size && After(script, size) == script
    ensures size != 0 && script != [] ==>
      var a, left := script[0], script[1..];
      if a.fails || !(1 <= a.count <= size) then
        && !Delivers(script, size) && After(script, size) == left
        && Sent(script, size) == if 0 <= a.count <= size then a.count else 0
      else
        && Delivers(script, size) == Delivers(left, size - a.count)
        && After(script, size) == After(left, size - a.count)
        && Sent(script, size) == a.count + Sent(left, size - a.count)
  {}

  /** writeFull. */
  method WriteFull(destination: Sink, payload: seq<byte>) returns (ok: bool)
    modifies destination
    ensures ok <==> Delivers(old(destination.script), |payload|)
    ensures destination.written == old(destination.written) + payload[..Sent(old(destination.script), |payload|)]
    ensures destination.script == After(old(destination.script), |payload|)
  {
    hide Delivers, Sent, After;
    var rest := payload;
    ghost var sent := 0;
    while |rest| != 0
      invariant 0 <= sent <= |payload| && rest == payload[sent..]
      invariant destination.written == old(destination.written) + payload[..sent]
      invariant Delivers(old(destination.script), |payload|) == Delivers(destination.script, |rest|)
      invariant Sent(old(destination.script), |payload|) == sent + Sent(destination.script, |rest|)
      invariant After(old(destination.script), |payload|) == After(destination.script, |rest|)
      decreases |rest|
    {
      WriteStep(destination.script, |rest|);
      var count, fails := destination.Write(rest);
      if count < 0 || count > |rest| { return false; }
      assert payload[..sent] + rest[..count] == payload[..sent + count];
      rest, sent := rest[count..], sent + count;
      if fails { return false; }
      if count == 0 { return false; }
      WriteStep(destination.script, |rest|);
    }
    WriteStep(destination.script, 0);
    ok := true;
  }

  /** The same for a frame: header and payload are offered one after the other. */
  predicate DeliversFrame(script: seq<Answer>, size: nat) {
    Delivers(script, HEADER) && Delivers(After(script, HEADER), size)
  }

  function FrameSent(script: seq<Answer>, size: nat): (n: nat)
    ensures n <= HEADER + size && (DeliversFrame(script, size) ==> n == HEADER + size)
  {
    if Delivers(script, HEADER) then HEADER + Sent(After(script, HEADER), size) else Sent(script, HEADER)
  }

  function FrameAfter(script: seq<Answer>, size: nat): seq<Answer> {
    var left := After(script, HEADER);
    if Delivers(script, HEADER) then After(left, size) else left
  }

  class FrameWriter {
    constructor () {}

    /** FrameWriter.Write: succeeds exactly when the payload is not too long and the writer delivers
        header and payload; what arrived is that prefix of the frame, and nothing at all of a payload
        that is too long. */
    method Write(destination: Sink, payload: seq<byte>) returns (ok: bool)
      modifies destination
      ensures ok <==> |payload| <= MAX_OUTPUT_PAYLOAD && DeliversFrame(old(destination.script), |payload|)
      ensures |payload| > MAX_OUTPUT_PAYLOAD ==> unchanged(destination)
      ensures |payload| <= MAX_OUTPUT_PAYLOAD ==>
        && destination.written
           == old(destination.written) + Encode(payload)[..FrameSent(old(destination.script), |payload|)]
        && destination.script == FrameAfter(old(destination.script), |payload|)
      ensures ok ==> destination.written == old(destination.written) + Encode(payload)
    {
      hide BigEndian, Delivers, Sent, After;
      if |payload| > MAX_OUTPUT_PAYLOAD { return false; }
      ghost var n := FrameSent(destination.script, |payload|);
      var header := BigEndian(|payload|);
      ok := WriteFull(destination, header);
      if !ok {
        assert Encode(payload)[..n] == header[..n];
        return;
      }
      assert header[..HEADER] == header;
      ok := WriteFull(destination, payload);
      assert Encode(payload)[..n] == header + payload[..n - HEADER];
      if ok { assert Encode(payload)[..n] == Encode(payload); }
    }
  }

  // ----- from writer to reader

  /** Frames written until a write fails: those sent with success, and a part of the next. */
  method WriteAll(destination: Sink, ps: seq<seq<byte>>) returns (sent: nat, ghost part: seq<byte>)
    requires Writable(ps)
    modifies destination
    ensures sent <= |ps| && part <= NextFrame(ps, sent)
    ensures destination.written == old(destination.written) + (Stream(ps[..sent]) + part)
    ensures old(destination.script) == [] ==> sent == |ps|
  {
    hide Encode, Stream;
    var writer := new FrameWriter();
    sent, part := 0, [];
    StreamOfNone();
    assert destination.written + [] == destination.written;
    while sent < |ps|
      invariant sent <= |ps|
      invariant destination.written == old(destination.written) + Stream(ps[..sent])
      invariant old(destination.script) == [] ==> destination.script == []
    {
      ghost var before := destination.written;
      part := Encode(ps[sent])[..FrameSent(destination.script, |ps[sent]|)];
      var ok := writer.Write(destination, ps[sent]);
      if !ok { return; }
      StreamAppend(ps[..sent], ps[sent]);
      assert ps[..sent + 1] == ps[..sent] + [ps[sent]];
      sent := sent + 1;
    }
    part := [];
    assert Stream(ps[..sent]) + [] == Stream(ps[..sent]);
  }

  lemma {:induction false} StreamOfNone()
    ensures Stream([]) == []
  {}

  function NextFrame(ps: seq<seq<byte>>, k: nat): seq<byte>
    requires Writable(ps)
  {
    if k < |ps| then Encode(ps[k]) else []
  }

  /** What is read of a stream that ends inside, or just after, frame k. */
  lemma {:induction false} PartRead(ps: seq<seq<byte>>, k: nat, part: seq<byte>)
    requires Readable(ps) && k <= |ps| && part <= NextFrame(ps, k)
    ensures Frames(Stream(ps[..k]) + part)
      == if part != [] && part == NextFrame(ps, k) then (ps[..k + 1], true) else (ps[..k], part == [])
  {
    hide Encode, Frames, Stream;
    if part == [] {
      StreamRoundTrip(ps[..k]);
      assert Stream(ps[..k]) + [] == Stream(ps[..k]);
    } else {
      var front := ps[..k + 1];
      assert front == ps[..k] + [ps[k]];
      StreamAppend(ps[..k], ps[k]);
      if part == Encode(ps[k]) {
        StreamRoundTrip(front);
      } else {
        assert front[..k] == ps[..k];
        var cut := |Stream(ps[..k])| + |part|;
        assert Stream(front)[..cut] == Stream(ps[..k]) + part;
        CutStream(front, k, cut);
      }
    }
  }

  /** Frames written and then read back, over any writer and any reader: what is read is what was sent,
      in order. `sent` frames were written with success; one more can have arrived in full although its
      write reported an error. */
  method Transmit(ps: seq<seq<byte>>, answers: seq<Answer>, arrivals: seq<Arrival>)
    returns (sent: nat, received: seq<seq<byte>>, clean: bool)
    requires Readable(ps)
    ensures sent <= |ps| && received <= ps
    ensures Quiet(arrivals) ==> sent <= |received| <= sent + 1
    ensures Quiet(arrivals) && sent == |ps| ==> received == ps && clean
    ensures answers == [] ==> sent == |ps|
  {
    hide Encode, Stream, Frames;
    var sink := new Sink(answers);
    ghost var part;
    sent, part := WriteAll(sink, ps);
    assert sink.written == Stream(ps[..sent]) + part;
    PartRead(ps, sent, part);
    var reader := new FrameReader();
    var source := new Source(sink.written, arrivals);
    received, clean := reader.ReadAll(source);
  }
}
