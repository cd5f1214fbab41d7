/** The loops that write and read chunks over a stream that may take or deliver fewer bytes than asked for,
    or fail. */
module ChunkedStreams {
  import opened ChunkedCoding

  /** What the transport does with one call: move up to this many bytes (at least one), or fail. */
  datatype Grant = Move(n: nat) | Error

  class Stream {
    var input: seq<Byte>
    var output: seq<Byte>
    var grants: seq<Grant>
    /** How many calls have failed. */
    ghost var errors: nat

    constructor (input: seq<Byte>, grants: seq<Grant>)
      ensures this.input == input && this.grants == grants && output == [] && errors == 0
    {
      this.input, this.grants, output, errors := input, grants, [], 0;
    }

    /** What the transport will do next; when nothing is laid down, it moves one byte. */
    method NextGrant() returns (g: Grant)
      modifies this`grants
      ensures g == FirstGrant(old(grants)) && grants == RestGrants(old(grants))
    {
      if grants == [] {
        return Move(1);
      }
      g := grants[0];
      grants := grants[1..];
    }

    /** Reads at least one byte unless the input has ended or the transport fails. */
    method Read(max: nat) returns (n: int, bytes: seq<Byte>)
      requires max > 0
      modifies this`input, this`grants, this`errors
      ensures n == -1 <==> FirstGrant(old(grants)).Error?
      ensures grants == RestGrants(old(grants)) && errors == old(errors) + if n == -1 then 1 else 0
      ensures n == -1 ==> input == old(input)
      ensures n != -1 ==> 0 <= n <= max && n == |bytes| && old(input) == bytes + input
      ensures n == 0 ==> old(input) == []
    {
      var g := NextGrant();
      if g.Error? {
        errors := errors + 1;
        return -1, [];
      }
      var k := if g.n == 0 then 1 else g.n;
      k := if k > max then max else k;
      k := if k > |input| then |input| else k;
      bytes := input[..k];
      input := input[k..];
      n := k;
    }

    /** Takes at least one of the bytes offered unless the transport fails. */
    method Write(bytes: seq<Byte>) returns (n: int)
      requires bytes != []
      modifies this`output, this`grants, this`errors
      ensures n == -1 <==> FirstGrant(old(grants)).Error?
      ensures grants == RestGrants(old(grants)) && errors == old(errors) + if n == -1 then 1 else 0
      ensures n == -1 ==> output == old(output)
      ensures n != -1 ==> 0 < n <= |bytes| && output == old(output) + bytes[..n]
    {
      var g := NextGrant();
      if g.Error? {
        errors := errors + 1;
        return -1;
      }
      n := if g.n == 0 then 1 else if g.n > |bytes| then |bytes| else g.n;
      output := output + bytes[..n];
    }
  }

  function FirstGrant(grants: seq<Grant>): (g: Grant) {
    if grants == [] then Move(1) else grants[0]
  }

  function RestGrants(grants: seq<Grant>): (r: seq<Grant>) {
    if grants == [] then [] else grants[1..]
  }

  ghost predicate NoError(grants: seq<Grant>) {
    forall i :: 0 <= i < |grants| ==> grants[i].Move?
  }

  /** The calls that used up the difference: none of them failed, except the last one if `failed`. */
  ghost predicate Spent(grants: seq<Grant>, grants': seq<Grant>, failed: bool) {
    exists used :: NoError(used) && grants == used + (if failed then [Error] else []) + grants'
  }

  lemma {:induction false} SpentNone(grants: seq<Grant>)
    ensures Spent(grants, grants, false)
  {
    assert NoError([]) && grants == [] + [] + grants;
  }

  lemma {:induction false} SpentOne(grants: seq<Grant>)
    ensures Spent(grants, RestGrants(grants), FirstGrant(grants).Error?)
  {
    if grants == [] {
      SpentNone(grants);
    } else if grants[0].Error? {
      assert NoError([]) && grants == [] + [Error] + grants[1..];
    } else {
      assert NoError([grants[0]]) && grants == [grants[0]] + [] + grants[1..];
    }
  }

  lemma {:induction false} SpentTwice(grants: seq<Grant>, grants1: seq<Grant>, grants2: seq<Grant>, failed: bool)
    requires Spent(grants, grants1, false) && Spent(grants1, grants2, failed)
    ensures Spent(grants, grants2, failed)
  {
    var a :| NoError(a) && grants == a + [] + grants1;
    var b :| NoError(b) && grants1 == b + (if failed then [Error] else []) + grants2;
    assert NoError(a + b) && grants == (a + b) + (if failed then [Error] else []) + grants2;
  }

  /** A call fails only if an error was laid down. */
  lemma {:induction false} FailedOnError(grants: seq<Grant>, grants': seq<Grant>, failed: bool)
    requires Spent(grants, grants', failed)
    ensures failed ==> !NoError(grants)
  {
    var used :| NoError(used) && grants == used + (if failed then [Error] else []) + grants';
    assert failed ==> |used| < |grants| && grants[|used|] == Error;
  }

  /** Each of the calls that used up the difference moved one of the `moved` bytes, except a failing one. */
  ghost predicate Busy(grants: seq<Grant>, grants': seq<Grant>, moved: int, failed: bool) {
    |grants| - |grants'| <= moved + if failed then 1 else 0
  }

  // ----- writing -----

  method FromIToHex(size: nat) returns (s: seq<Byte>)
    ensures s == Hex(size)
  {
    s := [];
    var n := size;
    while true
      invariant Hex(n) + s == Hex(size)
      decreases n
    {
      ghost var s0 := s;
      s := [HexDigit(n % 16)] + s;
      HexStep(n, s0);
      n := n / 16;
      if n == 0 {
        return;
      }
    }
  }

  lemma {:induction false} HexStep(n: nat, s: seq<Byte>)
    ensures n < 16 ==> Hex(n) + s == [HexDigit(n % 16)] + s
    ensures n >= 16 ==> Hex(n) + s == Hex(n / 16) + ([HexDigit(n % 16)] + s)
  {
  }

  /** Writes everything, or, if the transport fails, a part of it. */
  method WriteData(strm: Stream, d: seq<Byte>) returns (ok: bool)
    modifies strm`output, strm`grants, strm`errors
    ensures Spent(old(strm.grants), strm.grants, !ok) && strm.errors == old(strm.errors) + if ok then 0 else 1
    ensures ok ==> strm.output == old(strm.output) + d
    ensures !ok ==> old(strm.output) <= strm.output < old(strm.output) + d
    ensures Busy(old(strm.grants), strm.grants, |strm.output| - |old(strm.output)|, !ok)
  {
    var offset := 0;
    SpentNone(strm.grants);
    while offset < |d|
      invariant 0 <= offset <= |d| && strm.errors == old(strm.errors)
      invariant strm.output == old(strm.output) + d[..offset]
      invariant Spent(old(strm.grants), strm.grants, false) && Busy(old(strm.grants), strm.grants, offset, false)
    {
      ghost var before := strm.grants;
      var length := strm.Write(d[offset..]);
      SpentOne(before);
      SpentTwice(old(strm.grants), before, strm.grants, length < 0);
      if length < 0 {
        return false;
      }
      assert d[..offset] + d[offset..][..length] == d[..offset + length];
      offset := offset + length;
    }
    ok := true;
  }

  /** The sink a content provider writes to. */
  class ChunkedSink {
    const strm: Stream
    var ok: bool
    var dataAvailable: bool
    var offset: nat
    var totalWritten: nat

    constructor (strm: Stream)
      ensures this.strm == strm && ok && dataAvailable && offset == 0 && totalWritten == 0
    {
      this.strm := strm;
      ok, dataAvailable, offset, totalWritten := true, true, 0, 0;
    }

    ghost function St(): (st: SinkState)
      reads this, strm
    {
      SinkState(ok, dataAvailable, totalWritten, strm.output, strm.errors, strm.grants)
    }

    method Write(d: seq<Byte>)
      modifies this, strm`output, strm`grants, strm`errors
      ensures Sent(old(St()), [SinkOp.Write(d)], St())
      ensures old(ok) ==> offset == old(offset) + |d|
    {
      ghost var st := St();
      if ok {
        dataAvailable := |d| > 0;
        offset := offset + |d|;
        var size := FromIToHex(|d|);
        var chunk := size + CRLF + d + CRLF;
        var written := WriteData(strm, chunk);
        if written {
          totalWritten := totalWritten + |chunk|;
        } else {
          ok := false;
        }
      }
      SentOne(st, SinkOp.Write(d), St());
    }

    method Done()
      modifies this, strm`output, strm`grants, strm`errors
      ensures Sent(old(St()), [SinkOp.Done], St())
    {
      ghost var st := St();
      dataAvailable := false;
      if ok {
        var written := WriteData(strm, DONE_MARKER);
        if written {
          totalWritten := totalWritten + |DONE_MARKER|;
        } else {
          ok := false;
        }
      }
      SentOne(st, SinkOp.Done, St());
    }

    method Act(op: SinkOp)
      modifies this, strm`output, strm`grants, strm`errors
      ensures Sent(old(St()), [op], St())
    {
      if op.Write? {
        Write(op.data);
      } else {
        Done();
      }
    }

    method ActNext(ops: seq<SinkOp>, i: nat, ghost st: SinkState)
      requires i < |ops| && Sent(st, ops[..i], St())
      modifies this, strm`output, strm`grants, strm`errors
      ensures Sent(st, ops[..i + 1], St())
    {
      ghost var st1 := St();
      Act(ops[i]);
      SentNext(st, ops, i, st1, St());
    }

    /** One call of the content provider: any sequence of writes and ends. */
    method Provide(ops: seq<SinkOp>)
      modifies this, strm`output, strm`grants, strm`errors
      ensures Sent(old(St()), ops, St())
    {
      ghost var st := St();
      SentNothing(st);
      var i := 0;
      while i < |ops|
        invariant 0 <= i <= |ops| && Sent(st, ops[..i], St())
      {
        ActNext(ops, i, st);
        i := i + 1;
      }
      assert ops[..i] == ops;
    }
  }

  datatype SinkState =
    SinkState(ok: bool, available: bool, total: nat, output: seq<Byte>, errors: nat, grants: seq<Grant>)

  /** The operations have been sent completely, unless the transport failed: then at its first failing call. */
  ghost predicate Sent(st: SinkState, ops: seq<SinkOp>, st': SinkState) {
    && (st'.ok ==> && st.ok && st'.errors == st.errors && st'.output == st.output + EncodedAll(ops)
                   && st'.total == st.total + |EncodedAll(ops)| && st'.available == More(st.available, ops))
    && (st.ok && !st'.ok ==> st'.errors == st.errors + 1 && st.output <= st'.output < st.output + EncodedAll(ops))
    && (!st.ok ==> !st'.ok && st'.errors == st.errors && st'.output == st.output && st'.grants == st.grants)
    && (st.ok ==> Spent(st.grants, st'.grants, !st'.ok))
    && (st.ok ==> Busy(st.grants, st'.grants, |st'.output| - |st.output|, !st'.ok))
  }

  lemma {:induction false} SentNothing(st: SinkState)
    ensures Sent(st, [], st)
  {
    assert st.output + [] == st.output;
    SpentNone(st.grants);
  }

  lemma {:induction false} SentOne(st: SinkState, op: SinkOp, st': SinkState)
    requires st'.ok ==> && st.ok && st'.errors == st.errors && st'.output == st.output + Encoded(op)
                        && st'.total == st.total + |Encoded(op)| && st'.available == (op.Write? && |op.data| > 0)
    requires st.ok && !st'.ok ==> st'.errors == st.errors + 1 && st.output <= st'.output < st.output + Encoded(op)
    requires !st.ok ==> !st'.ok && st'.errors == st.errors && st'.output == st.output && st'.grants == st.grants
    requires st.ok ==> Spent(st.grants, st'.grants, !st'.ok)
    requires st.ok ==> Busy(st.grants, st'.grants, |st'.output| - |st.output|, !st'.ok)
    ensures Sent(st, [op], st')
  {
    assert EncodedAll([op]) == Encoded(op) + EncodedAll([]);
  }

  lemma {:induction false} SentBoth(st: SinkState, a: seq<SinkOp>, st1: SinkState, b: seq<SinkOp>, st2: SinkState)
    requires Sent(st, a, st1) && Sent(st1, b, st2) && b != []
    ensures Sent(st, a + b, st2)
  {
    EncodedConcat(a, b);
    Regroup(st.output, EncodedAll(a), EncodedAll(b));
    assert (a + b)[|a + b| - 1] == b[|b| - 1];
    if st1.ok {
      SpentTwice(st.grants, st1.grants, st2.grants, !st2.ok);
    }
  }

  lemma {:induction false} SentNext(st: SinkState, ops: seq<SinkOp>, i: nat, st1: SinkState, st2: SinkState)
    requires i < |ops| && Sent(st, ops[..i], st1) && Sent(st1, [ops[i]], st2)
    ensures Sent(st, ops[..i + 1], st2)
  {
    assert ops[..i + 1] == ops[..i] + [ops[i]];
    SentBoth(st, ops[..i], st1, [ops[i]], st2);
  }

  /** Whether the provider is asked again: unless its last act was an empty write or an end. */
  function More(available: bool, ops: seq<SinkOp>): (more: bool) {
    if ops == [] then available
    else var last := ops[|ops| - 1]; last.Write? && |last.data| > 0
  }

  lemma {:induction false} EncodedConcat(a: seq<SinkOp>, b: seq<SinkOp>)
    ensures EncodedAll(a + b) == EncodedAll(a) + EncodedAll(b)
  {
    if a == [] {
      assert a + b == b;
    } else {
      assert (a + b)[1..] == a[1..] + b;
      EncodedConcat(a[1..], b);
    }
  }

  /** The operations of the calls that take place: the provider is called until nothing more is available;
      the list of calls ends where the server shuts down. */
  function Called(calls: seq<seq<SinkOp>>): (ops: seq<SinkOp>) {
    if calls == [] then [] else if !More(true, calls[0]) then calls[0] else calls[0] + Called(calls[1..])
  }

  lemma {:induction false} CalledStep(calls: seq<seq<SinkOp>>, k: nat)
    requires k < |calls|
    ensures Called(calls[k..]) == calls[k] + if More(true, calls[k]) then Called(calls[k + 1..]) else []
  {
    assert calls[k..][1..] == calls[k + 1..];
  }

  /** The whole stream so far: what is written, and what the remaining calls will add. */
  ghost predicate Progress(st0: SinkState, st: SinkState, all: seq<SinkOp>, done: seq<SinkOp>, left: seq<SinkOp>) {
    && Sent(st0, done, st) && st0.ok && st0.total == 0 && st.ok && all == done + (if st.available then left else [])
  }

  lemma {:induction false} ProgressMore(st0: SinkState, st: SinkState, all: seq<SinkOp>, done: seq<SinkOp>,
                                        ops: seq<SinkOp>, left: seq<SinkOp>, st': SinkState)
    requires Progress(st0, st, all, done, ops + if More(true, ops) then left else [])
    requires st.available && Sent(st, ops, st')
    ensures Sent(st0, done + ops, st')
    ensures st'.ok ==> Progress(st0, st', all, done + ops, left)
  {
    if ops == [] {
      assert done + ops == done && st'.output + [] == st'.output;
      SpentTwice(st0.grants, st.grants, st'.grants, !st'.ok);
    } else {
      SentBoth(st0, done, st, ops, st');
    }
    Regroup(done, ops, if More(true, ops) then left else []);
  }

  /** What the transport has got is the start of the encoding of all operations. */
  lemma {:induction false} PartSent(st0: SinkState, done: seq<SinkOp>, more: seq<SinkOp>, st: SinkState)
    requires Sent(st0, done, st) && st0.ok
    ensures st0.output <= st.output <= st0.output + EncodedAll(done + more)
    ensures !st.ok ==> st.output != st0.output + EncodedAll(done + more)
  {
    EncodedConcat(done, more);
    Regroup(st0.output, EncodedAll(done), EncodedAll(more));
  }

  /** Returns the number of bytes written, or -1 after the first call of the transport that failed. */
  method WriteContentChunked(strm: Stream, calls: seq<seq<SinkOp>>) returns (total: int)
    modifies strm`output, strm`grants, strm`errors
    ensures Spent(old(strm.grants), strm.grants, total < 0)
    ensures strm.errors == old(strm.errors) + if total < 0 then 1 else 0
    ensures total >= 0 ==>
              strm.output == old(strm.output) + EncodedAll(Called(calls)) && total == |EncodedAll(Called(calls))|
    ensures total < 0 ==> total == -1
    ensures total < 0 ==> old(strm.output) <= strm.output < old(strm.output) + EncodedAll(Called(calls))
    ensures Busy(old(strm.grants), strm.grants, |strm.output| - |old(strm.output)|, total < 0)
  {
    ghost var all := Called(calls);
    var sink := new ChunkedSink(strm);
    ghost var st0 := sink.St();
    var k := 0;
    ghost var done: seq<SinkOp> := [];
    assert calls[0..] == calls && [] + all == all;
    SentNothing(st0);
    while sink.dataAvailable && k < |calls|
      invariant 0 <= k <= |calls| && sink.strm == strm && fresh(sink)
      invariant Progress(st0, sink.St(), all, done, Called(calls[k..]))
      decreases |calls| - k
    {
      ghost var st := sink.St();
      CalledStep(calls, k);
      sink.Provide(calls[k]);
      ProgressMore(st0, st, all, done, calls[k], Called(calls[k + 1..]), sink.St());
      if !sink.ok {
        ghost var more := if More(true, calls[k]) then Called(calls[k + 1..]) else [];
        Regroup(done, calls[k], more);
        PartSent(st0, done + calls[k], more, sink.St());
        return -1;
      }
      done := done + calls[k];
      k := k + 1;
    }
    assert done + [] == done;
    total := sink.totalWritten;
  }

  // ----- reading -----

  const LINE_BUFFER: nat := 16

  /** Collects a line in a small buffer, and in a growing string once that is full. */
  class LineReader {
    const strm: Stream
    const fixed: array<Byte>
    var used: nat
    var growing: seq<Byte>

    ghost predicate Valid()
      reads this, fixed
    {
      && fixed.Length == LINE_BUFFER && used < LINE_BUFFER && fixed[used] == 0
      && (growing != [] ==> used == LINE_BUFFER - 1)
    }

    /** The bytes between ptr() and ptr() + size(). */
    function Content(): (line: seq<Byte>)
      requires Valid()
      reads this, fixed
    {
      if growing == [] then fixed[..used] else growing
    }

    constructor (strm: Stream)
      ensures Valid() && this.strm == strm && fresh(fixed) && Content() == []
    {
      this.strm, used, growing := strm, 0, [];
      fixed := new Byte[LINE_BUFFER](i => 0);
    }

    method Append(c: Byte)
      requires Valid()
      modifies this`used, this`growing, fixed
      ensures Valid() && Content() == old(Content()) + [c]
    {
      if used < LINE_BUFFER - 1 {
        fixed[used] := c;
        used := used + 1;
        fixed[used] := 0;
      } else {
        if growing == [] {
          growing := fixed[..used];
        }
        growing := growing + [c];
      }
    }

    method Reset()
      requires fixed.Length == LINE_BUFFER
      modifies this`used, this`growing, fixed
      ensures Valid() && Content() == []
    {
      used, growing := 0, [];
      fixed[0] := 0;
    }

    /** Reads a line; false at the end of the input or when the transport fails. */
    method GetLine() returns (ok: bool)
      requires Valid()
      modifies this`used, this`growing, fixed, strm`input, strm`grants, strm`errors
      ensures Valid() && GotLine(old(strm.input), old(strm.errors), ok, Content(), strm.input, strm.errors)
      ensures strm.errors >= old(strm.errors) && Spent(old(strm.grants), strm.grants, strm.errors > old(strm.errors))
      ensures |strm.input| <= |old(strm.input)|
      ensures WholeLine(old(strm.input)) ==>
                && Busy(old(strm.grants), strm.grants, |old(strm.input)| - |strm.input|, strm.errors > old(strm.errors))
                && (strm.errors > old(strm.errors) ==> strm.input != [])
    {
      ghost var input, grants := strm.input, strm.grants;
      Reset();
      var first := true;
      LineStarts(input);
      SpentNone(grants);
      while true
        invariant Valid() && strm.errors == old(strm.errors) && (first <==> Content() == [])
        invariant LineSoFar(input, Content(), strm.input)
        invariant Spent(grants, strm.grants, false) && Busy(grants, strm.grants, |input| - |strm.input|, false)
        decreases |strm.input|
      {
        ghost var line, rest, before := Content(), strm.input, strm.grants;
        var n, bytes := strm.Read(1);
        SpentOne(before);
        SpentTwice(grants, before, strm.grants, n < 0);
        if rest == [] {
          LineEnds(input, line);
        }
        if n < 0 {
          return false;
        } else if n == 0 {
          return !first;
        }
        LineStep(input, line, rest);
        Append(bytes[0]);
        first := false;
        if bytes[0] == LF {
          return true;
        }
      }
    }
  }

  /** Reading a line: its bytes, the rest of the input, and how often the transport has failed. */
  ghost predicate GotLine(input: seq<Byte>, errors: nat, ok: bool, line: seq<Byte>, rest: seq<Byte>, errors': nat) {
    if errors' > errors then !ok
    else errors' == errors && line == Line(input) && rest == input[|line|..] && (ok <==> line != [])
  }

  /** The line at the start of `input` begins with `line` and goes on in `rest`. */
  ghost predicate LineSoFar(input: seq<Byte>, line: seq<Byte>, rest: seq<Byte>) {
    && input == line + rest && Line(input) == line + Line(rest)
    && (line != [] ==> line[|line| - 1] != LF)
  }

  lemma {:induction false} LineStarts(input: seq<Byte>)
    ensures LineSoFar(input, [], input)
  {
    assert [] + input == input && [] + Line(input) == Line(input);
  }

  lemma {:induction false} LineStep(input: seq<Byte>, line: seq<Byte>, rest: seq<Byte>)
    requires LineSoFar(input, line, rest) && rest != []
    ensures rest[0] != LF ==> LineSoFar(input, line + [rest[0]], rest[1..])
    ensures rest[0] == LF ==> line + [rest[0]] == Line(input) && rest[1..] == input[|Line(input)|..]
  {
    var b, tail := [rest[0]], rest[1..];
    assert rest == b + tail;
    Regroup(line, b, tail);
    Regroup(line, b, Line(tail));
  }

  lemma {:induction false} LineEnds(input: seq<Byte>, line: seq<Byte>)
    requires LineSoFar(input, line, [])
    ensures Line(input) == line && input[|line|..] == [] && !WholeLine(input)
  {
    assert line + [] == line;
  }

  const RECV_BUFSIZ: nat := 4096

  /** Takes the content; after some calls it may ask to stop. */
  class Receiver {
    var received: seq<Byte>
    var patience: nat
    ghost var refusals: nat

    constructor (patience: nat)
      ensures received == [] && this.patience == patience && refusals == 0
    {
      received, this.patience, refusals := [], patience, 0;
    }

    method Accept(bytes: seq<Byte>) returns (go: bool)
      modifies this
      ensures received == old(received) + bytes && (go <==> old(patience) > 0)
      ensures patience == (if go then old(patience) - 1 else 0) && refusals == old(refusals) + if go then 0 else 1
    {
      received := received + bytes;
      go := patience > 0;
      if go {
        patience := patience - 1;
      } else {
        refusals := refusals + 1;
      }
    }
  }

  /** A snapshot of both ends: input left, what has been received, and how often either end gave up. */
  datatype Ends = Ends(input: seq<Byte>, received: seq<Byte>, trouble: nat)

  ghost function EndsOf(strm: Stream, out: Receiver): (e: Ends)
    reads strm, out
  {
    Ends(strm.input, out.received, strm.errors + out.refusals)
  }

  /** Why an end may give up: what the transport will do, how many more calls the receiver takes, and how often
      either gave up; with the numbers of bytes received and still to be read. */
  datatype Causes = Causes(grants: seq<Grant>, errors: nat, patience: nat, refusals: nat, got: nat, unread: nat)

  ghost function CausesOf(strm: Stream, out: Receiver): (k: Causes)
    reads strm, out
  {
    Causes(strm.grants, strm.errors, out.patience, out.refusals, |out.received|, |strm.input|)
  }

  /** The transport failed only where an error was laid down, and the receiver refused only after more bytes than
      it has patience for. */
  ghost predicate Fair(k: Causes, k': Causes) {
    && k.errors <= k'.errors && Spent(k.grants, k'.grants, k'.errors > k.errors)
    && k.refusals <= k'.refusals && k.got <= k'.got && k.patience + k.got <= k'.patience + k'.got
    && (k'.refusals > k.refusals ==> k'.got > k.patience + k.got)
  }

  /** Each call that did not fail read a byte, and one that failed could have. */
  ghost predicate Paid(k: Causes, k': Causes) {
    && k'.unread <= k.unread && Busy(k.grants, k'.grants, k.unread - k'.unread, k'.errors > k.errors)
    && (k'.errors > k.errors ==> k'.unread > 0)
  }

  lemma {:induction false} FairNone(k: Causes)
    ensures Fair(k, k) && Paid(k, k)
  {
    SpentNone(k.grants);
  }

  lemma {:induction false} FairTwice(k: Causes, k1: Causes, k2: Causes)
    requires Fair(k, k1) && Fair(k1, k2) && k1.errors == k.errors
    ensures Fair(k, k2) && (Paid(k, k1) && Paid(k1, k2) ==> Paid(k, k2))
  {
    SpentTwice(k.grants, k1.grants, k2.grants, k2.errors > k1.errors);
  }

  /** Exactly `len` bytes are passed on, or all there are; if an end gave up, a part of them. */
  ghost predicate GotData(e: Ends, len: nat, ok: bool, e': Ends) {
    var n := if len <= |e.input| then len else |e.input|;
    if e'.trouble > e.trouble then !ok && e'.received <= e.received + e.input[..n]
    else
      && e'.trouble == e.trouble && (ok <==> len <= |e.input|)
      && e'.received == e.received + e.input[..n] && e'.input == e.input[n..]
  }

  /** One read passed on: -1 when an end gave up, 0 at the end of the input. */
  ghost predicate GotSome(e: Ends, max: nat, n: int, e': Ends) {
    if n < 0 then
      && e'.trouble > e.trouble
      && exists k :: 0 <= k <= max && k <= |e.input| && e'.received == e.received + e.input[..k]
    else if n == 0 then e.input == [] && e' == e
    else n <= max && n <= |e.input| && e' == Ends(e.input[n..], e.received + e.input[..n], e.trouble)
  }

  method PassOn(strm: Stream, max: nat, out: Receiver) returns (n: int)
    requires max > 0
    modifies strm`input, strm`grants, strm`errors, out
    ensures GotSome(old(EndsOf(strm, out)), max, n, EndsOf(strm, out))
    ensures Fair(old(CausesOf(strm, out)), CausesOf(strm, out)) && (n >= 0 ==> strm.errors == old(strm.errors))
    ensures old(strm.input) != [] ==> Paid(old(CausesOf(strm, out)), CausesOf(strm, out))
  {
    ghost var e := EndsOf(strm, out);
    SpentOne(strm.grants);
    var bytes;
    n, bytes := strm.Read(max);
    if n > 0 {
      assert e.input[..n] == bytes && e.input[n..] == strm.input;
      var go := out.Accept(bytes);
      if !go {
        n := -1;
      }
    } else {
      assert e.input[..0] == [] && e.received + [] == e.received;
    }
  }

  /** The next piece of `len` bytes, after `r` of them. */
  method PassOnNext(strm: Stream, len: nat, r: nat, out: Receiver, ghost e: Ends, ghost k: Causes) returns (n: int)
    requires r < len && DataSoFar(e, r, EndsOf(strm, out))
    requires Fair(k, CausesOf(strm, out)) && strm.errors == k.errors
    requires len <= |e.input| ==> Paid(k, CausesOf(strm, out))
    modifies strm`input, strm`grants, strm`errors, out
    ensures n > 0 ==> r + n <= len && DataSoFar(e, r + n, EndsOf(strm, out))
    ensures n <= 0 ==> GotData(e, len, false, EndsOf(strm, out))
    ensures Fair(k, CausesOf(strm, out)) && (n > 0 ==> strm.errors == k.errors)
    ensures len <= |e.input| ==> Paid(k, CausesOf(strm, out))
  {
    ghost var e1, k1 := EndsOf(strm, out), CausesOf(strm, out);
    var readLen := if len - r < RECV_BUFSIZ then len - r else RECV_BUFSIZ;
    n := PassOn(strm, readLen, out);
    DataStep(e, r, len, e1, readLen, n, EndsOf(strm, out));
    FairTwice(k, k1, CausesOf(strm, out));
  }

  method ReadContentWithLength(strm: Stream, len: nat, out: Receiver) returns (ok: bool)
    modifies strm`input, strm`grants, strm`errors, out
    ensures GotData(old(EndsOf(strm, out)), len, ok, EndsOf(strm, out))
    ensures Fair(old(CausesOf(strm, out)), CausesOf(strm, out)) && (ok ==> strm.errors == old(strm.errors))
    ensures len <= |old(strm.input)| ==> Paid(old(CausesOf(strm, out)), CausesOf(strm, out))
  {
    ghost var e, k := EndsOf(strm, out), CausesOf(strm, out);
    var r := 0;
    DataStart(e);
    FairNone(k);
    while r < len
      invariant 0 <= r <= len && DataSoFar(e, r, EndsOf(strm, out))
      invariant Fair(k, CausesOf(strm, out)) && strm.errors == k.errors
      invariant len <= |e.input| ==> Paid(k, CausesOf(strm, out))
    {
      var n := PassOnNext(strm, len, r, out, e, k);
      if n <= 0 {
        return false;
      }
      r := r + n;
    }
    ok := true;
  }

  ghost predicate DataSoFar(e: Ends, r: nat, e': Ends) {
    r <= |e.input| && e' == Ends(e.input[r..], e.received + e.input[..r], e.trouble)
  }

  lemma {:induction false} DataStart(e: Ends)
    ensures DataSoFar(e, 0, e)
  {
    assert e.received + [] == e.received;
  }

  lemma {:induction false} DataStep(e: Ends, r: nat, len: nat, e1: Ends, max: nat, n: int, e2: Ends)
    requires r < len && DataSoFar(e, r, e1) && GotSome(e1, max, n, e2) && max <= len - r
    ensures n > 0 ==> r + n <= len && DataSoFar(e, r + n, e2)
    ensures n <= 0 ==> GotData(e, len, false, e2)
  {
    if n > 0 {
      assert e.input[r..][..n] == e.input[r..r + n] && e.input[..r] + e.input[r..r + n] == e.input[..r + n];
      Regroup(e.received, e.input[..r], e.input[r..r + n]);
    } else if n == 0 {
      assert e.input[..r] == e.input;
    } else {
      var k :| 0 <= k <= max && k <= |e1.input| && e2.received == e1.received + e1.input[..k];
      assert e.input[r..][..k] == e.input[r..r + k] && e.input[..r] + e.input[r..r + k] == e.input[..r + k];
      Regroup(e.received, e.input[..r], e.input[r..r + k]);
    }
  }

  // ----- the chunked reader -----

  /** The reader did what `Decoded` says; if one of the ends gave up, it passed on a part of the data. */
  ghost predicate GotContent(e: Ends, ok: bool, e': Ends) {
    var o := Decoded(e.input);
    if e'.trouble > e.trouble then !ok && e'.received <= e.received + o.out
    else
      e'.trouble == e.trouble && ok == o.ok && e'.received == e.received + o.out && (ok ==> e'.input == o.rest)
  }

  /** The reader has passed on `done` and stands after a line at the start of `input`. */
  ghost predicate AtLine(e: Ends, done: seq<Byte>, input: seq<Byte>, line: seq<Byte>, e1: Ends) {
    && Decoded(e.input) == Prepended(done, Decoded(input))
    && line == Line(input) && line != [] && e1 == Ends(input[|line|..], e.received + done, e.trouble)
  }

  datatype Status = Next | Success | Failure

  lemma {:induction false} FirstLine(e: Ends, ok: bool, line: seq<Byte>, e1: Ends)
    requires e1.received == e.received && e1.trouble >= e.trouble
    requires GotLine(e.input, e.trouble, ok, line, e1.input, e1.trouble)
    ensures ok ==> AtLine(e, [], e.input, line, e1)
    ensures !ok ==> GotContent(e, false, e1)
  {
    var o := Decoded(e.input);
    assert [] + o.out == o.out && e.received + [] == e.received;
  }

  lemma {:induction false} BadSize(e: Ends, done: seq<Byte>, input: seq<Byte>, line: seq<Byte>, e1: Ends)
    requires AtLine(e, done, input, line, e1) && (StrToUl(line) == -1 || StrToUl(line) == ULONG_MAX)
    ensures GotContent(e, false, e1)
  {
    assert done + [] == done;
  }

  lemma {:induction false} LastLine(e: Ends, done: seq<Byte>, input: seq<Byte>, line: seq<Byte>, e1: Ends, ok: bool,
                                    last: seq<Byte>, e2: Ends)
    requires AtLine(e, done, input, line, e1) && StrToUl(line) == 0
    requires e2.received == e1.received && GotLine(e1.input, e1.trouble, ok, last, e2.input, e2.trouble)
    ensures GotContent(e, ok && last == CRLF, e2)
  {
    assert done + [] == done;
  }

  lemma {:induction false} ShortData(e: Ends, done: seq<Byte>, input: seq<Byte>, line: seq<Byte>, e1: Ends, e2: Ends)
    requires AtLine(e, done, input, line, e1) && 0 < StrToUl(line) < ULONG_MAX && GotData(e1, StrToUl(line), false, e2)
    ensures GotContent(e, false, e2)
  {
    DataFirst(input, line, e1.input);
    if e2.trouble > e1.trouble {
      Regroup(e.received, done, Decoded(input).out);
    } else {
      Regroup(e.received, done, e1.input);
      assert e1.input[..|e1.input|] == e1.input;
    }
  }

  /** The data of a chunk, or all there is of it, comes first. */
  lemma {:induction false} DataFirst(input: seq<Byte>, line: seq<Byte>, rest: seq<Byte>)
    requires line == Line(input) && line != [] && rest == input[|line|..] && 0 < StrToUl(line) < ULONG_MAX
    ensures (var n := if StrToUl(line) <= |rest| then StrToUl(line) else |rest|; rest[..n] <= Decoded(input).out)
    ensures StrToUl(line) > |rest| ==> Decoded(input).out == rest && !Decoded(input).ok
  {
  }

  /** After a chunk's data: the end of its line, and whether there is another chunk. */
  lemma {:induction false} AfterData(e: Ends, done: seq<Byte>, input: seq<Byte>, line: seq<Byte>, e1: Ends, e2: Ends,
                                     ok: bool, end: seq<Byte>, e3: Ends)
    requires AtLine(e, done, input, line, e1) && 0 < StrToUl(line) < ULONG_MAX && GotData(e1, StrToUl(line), true, e2)
    requires e3.received == e2.received && GotLine(e2.input, e2.trouble, ok, end, e3.input, e3.trouble)
    ensures !ok ==> GotContent(e, false, e3)
    ensures ok && end != CRLF ==> GotContent(e, true, e3)
    ensures ok && end == CRLF ==> Decoded(e.input) == Prepended(done + e1.input[..StrToUl(line)], Decoded(e3.input))
                                  && e3.received == e.received + (done + e1.input[..StrToUl(line)])
                                  && |e3.input| < |input|
  {
    var n := StrToUl(line);
    var data := e1.input[..n];
    Regroup(e.received, done, data);
    if ok && end == CRLF {
      Regroup(done, data, Decoded(e3.input).out);
    } else {
      assert data + [] == data;
    }
  }

  lemma {:induction false} NextLine(e: Ends, done: seq<Byte>, e3: Ends, ok: bool, line: seq<Byte>, e4: Ends)
    requires Decoded(e.input) == Prepended(done, Decoded(e3.input))
    requires e3.received == e.received + done && e3.trouble == e.trouble
    requires e4.received == e3.received && GotLine(e3.input, e3.trouble, ok, line, e4.input, e4.trouble)
    ensures ok ==> AtLine(e, done, e3.input, line, e4)
    ensures !ok ==> GotContent(e, false, e4)
  {
    assert done + [] == done;
  }

  /** Reads a line while content goes to `out`. */
  method NextOf(reader: LineReader, ghost out: Receiver) returns (ok: bool)
    requires reader.Valid()
    modifies reader`used, reader`growing, reader.fixed, reader.strm`input, reader.strm`grants, reader.strm`errors
    ensures reader.Valid()
    ensures GotLine(old(reader.strm.input), old(EndsOf(reader.strm, out)).trouble, ok, reader.Content(),
                    reader.strm.input, EndsOf(reader.strm, out).trouble)
    ensures EndsOf(reader.strm, out).received == old(EndsOf(reader.strm, out)).received
    ensures Fair(old(CausesOf(reader.strm, out)), CausesOf(reader.strm, out))
    ensures ok ==> reader.strm.errors == old(reader.strm.errors)
    ensures WholeLine(old(reader.strm.input)) ==> Paid(old(CausesOf(reader.strm, out)), CausesOf(reader.strm, out))
  {
    ok := reader.GetLine();
  }

  /** Reads the data of a chunk, the end of its line and the next size line. */
  method ReadChunk(reader: LineReader, out: Receiver, n: nat, ghost e: Ends, ghost done: seq<Byte>,
                   ghost input: seq<Byte>, ghost k: Causes)
    returns (status: Status, ghost done': seq<Byte>, ghost input': seq<Byte>)
    requires reader.Valid() && AtLine(e, done, input, reader.Content(), EndsOf(reader.strm, out))
    requires n == StrToUl(reader.Content()) && 0 < n < ULONG_MAX
    requires Fair(k, CausesOf(reader.strm, out)) && reader.strm.errors == k.errors
    requires Sealed(e.input) ==> Sealed(input) && Paid(k, CausesOf(reader.strm, out))
    modifies reader`used, reader`growing, reader.fixed, reader.strm`input, reader.strm`grants, reader.strm`errors, out
    ensures reader.Valid()
    ensures status.Failure? ==> GotContent(e, false, EndsOf(reader.strm, out))
    ensures status.Success? ==> GotContent(e, true, EndsOf(reader.strm, out))
    ensures status.Next? ==> AtLine(e, done', input', reader.Content(), EndsOf(reader.strm, out)) && |input'| < |input|
    ensures Fair(k, CausesOf(reader.strm, out)) && (status.Next? ==> reader.strm.errors == k.errors)
    ensures Sealed(e.input) ==> Paid(k, CausesOf(reader.strm, out)) && (status.Next? ==> Sealed(input'))
  {
    ghost var line, e1, k1 := reader.Content(), EndsOf(reader.strm, out), CausesOf(reader.strm, out);
    done', input' := done + e1.input[..if n <= |e1.input| then n else 0], [];
    var ok := ReadContentWithLength(reader.strm, n, out);
    FairTwice(k, k1, CausesOf(reader.strm, out));
    ghost var e2 := EndsOf(reader.strm, out);
    if !ok {
      ShortData(e, done, input, line, e1, e2);
      return Failure, done', input';
    }
    status, input' := AfterChunk(reader, out, n, e, done, input, line, e1, k);
  }

  /** After the data of a chunk. */
  method AfterChunk(reader: LineReader, ghost out: Receiver, ghost n: nat, ghost e: Ends, ghost done: seq<Byte>,
                    ghost input: seq<Byte>, ghost line: seq<Byte>, ghost e1: Ends, ghost k: Causes)
    returns (status: Status, ghost input': seq<Byte>)
    requires reader.Valid() && AtLine(e, done, input, line, e1) && n == StrToUl(line) && 0 < n < ULONG_MAX
    requires GotData(e1, n, true, EndsOf(reader.strm, out))
    requires Fair(k, CausesOf(reader.strm, out)) && reader.strm.errors == k.errors
    requires Sealed(e.input) ==> Sealed(input) && Paid(k, CausesOf(reader.strm, out))
    modifies reader`used, reader`growing, reader.fixed, reader.strm`input, reader.strm`grants, reader.strm`errors
    ensures reader.Valid()
    ensures status.Failure? ==> GotContent(e, false, EndsOf(reader.strm, out))
    ensures status.Success? ==> GotContent(e, true, EndsOf(reader.strm, out))
    ensures status.Next? ==>
              && n <= |e1.input| && |input'| < |input|
              && AtLine(e, done + e1.input[..n], input', reader.Content(), EndsOf(reader.strm, out))
    ensures Fair(k, CausesOf(reader.strm, out)) && (status.Next? ==> reader.strm.errors == k.errors)
    ensures Sealed(e.input) ==> Paid(k, CausesOf(reader.strm, out)) && (status.Next? ==> Sealed(input'))
  {
    ghost var e2, k2 := EndsOf(reader.strm, out), CausesOf(reader.strm, out);
    input' := [];
    var ok := NextOf(reader, out);
    ghost var e3, k3 := EndsOf(reader.strm, out), CausesOf(reader.strm, out);
    FairTwice(k, k2, k3);
    AfterData(e, done, input, line, e1, e2, ok, reader.Content(), e3);
    if !ok {
      return Failure, input';
    }
    if reader.Content() != CRLF {
      return Success, input';
    }
    ok := NextOf(reader, out);
    FairTwice(k, k3, CausesOf(reader.strm, out));
    NextLine(e, done + e1.input[..n], e3, ok, reader.Content(), EndsOf(reader.strm, out));
    input' := e3.input;
    status := if ok then Next else Failure;
  }

  method ReadContentChunked(strm: Stream, out: Receiver) returns (ok: bool)
    modifies strm`input, strm`grants, strm`errors, out
    ensures GotContent(old(EndsOf(strm, out)), ok, EndsOf(strm, out))
    ensures Fair(old(CausesOf(strm, out)), CausesOf(strm, out))
    ensures Sealed(old(strm.input)) ==> Paid(old(CausesOf(strm, out)), CausesOf(strm, out))
  {
    ghost var e, k := EndsOf(strm, out), CausesOf(strm, out);
    var reader := new LineReader(strm);
    ok := NextOf(reader, out);
    FirstLine(e, ok, reader.Content(), EndsOf(strm, out));
    if !ok {
      return;
    }
    ghost var done, input := [], e.input;
    while true
      invariant reader.Valid() && reader.strm == strm && fresh(reader) && fresh(reader.fixed)
      invariant AtLine(e, done, input, reader.Content(), EndsOf(strm, out))
      invariant Fair(k, CausesOf(strm, out)) && strm.errors == k.errors
      invariant Sealed(e.input) ==> Sealed(input) && Paid(k, CausesOf(strm, out))
      decreases |input|
    {
      var chunkLen := StrToUl(reader.Content());
      if chunkLen == -1 || chunkLen == ULONG_MAX {
        BadSize(e, done, input, reader.Content(), EndsOf(strm, out));
        return false;
      }
      if chunkLen == 0 {
        ghost var line, e1, k1 := reader.Content(), EndsOf(strm, out), CausesOf(strm, out);
        ok := NextOf(reader, out);
        FairTwice(k, k1, CausesOf(strm, out));
        LastLine(e, done, input, line, e1, ok, reader.Content(), EndsOf(strm, out));
        return ok && reader.Content() == CRLF;
      }
      var status;
      status, done, input := ReadChunk(reader, out, chunkLen, e, done, input, k);
      if !status.Next? {
        return status.Success?;
      }
    }
  }

  /** Which end gave up. */
  datatype Blame = Nobody | WritingEnd | ReadingEnd | ReceivingEnd

  /** Reading a whole message from a transport. */
  method Deliver(input: seq<Byte>, reading: seq<Grant>, patience: nat)
    returns (ok: bool, data: seq<Byte>, ghost blame: Blame, ghost left: seq<Grant>)
    requires Decoded(input).ok && Sealed(input)
    ensures data <= Decoded(input).out && (ok ==> data == Decoded(input).out)
    ensures NoError(reading) && patience >= |Decoded(input).out| ==> ok
    ensures (ok <==> blame.Nobody?) && !blame.WritingEnd?
    ensures blame.ReadingEnd? ==> Spent(reading, left, true) && |reading| - |left| <= |input|
    ensures blame.ReceivingEnd? ==> |data| > patience
  {
    var client := new Stream(input, reading);
    var out := new Receiver(patience);
    ok := ReadContentChunked(client, out);
    FailedOnError(reading, client.grants, client.errors > 0);
    data := out.received;
    blame := if ok then Nobody else if client.errors > 0 then ReadingEnd else ReceivingEnd;
    left := client.grants;
    assert [] + Decoded(input).out == Decoded(input).out;
  }

  /** Writing to one transport and reading the bytes from another: the data before the first empty write or
      end arrives, however the transports split it, unless an error is laid down for one of them or the receiver
      has less patience than there are bytes.  A part of the data arrives in any case.  A transport is to blame
      only for its first error, after which the calls `left` were still laid down, and only if that error is among
      its first calls, no more of them than there are bytes to move. */
  method Transfer(calls: seq<seq<SinkOp>>, writing: seq<Grant>, reading: seq<Grant>, patience: nat)
    returns (ok: bool, data: seq<Byte>, ghost blame: Blame, ghost left: seq<Grant>)
    requires Terminated(Called(calls))
    requires forall i :: 0 <= i < |Called(calls)| ==> Called(calls)[i].Write? ==> |Called(calls)[i].data| < ULONG_MAX
    ensures data <= Content(Called(calls)) && (ok ==> data == Content(Called(calls)))
    ensures NoError(writing) && NoError(reading) && patience >= |Content(Called(calls))| ==> ok
    ensures ok <==> blame.Nobody?
    ensures blame.WritingEnd? ==>
              data == [] && Spent(writing, left, true) && |writing| - |left| <= |EncodedAll(Called(calls))|
    ensures blame.ReadingEnd? ==> Spent(reading, left, true) && |reading| - |left| <= |EncodedAll(Called(calls))|
    ensures blame.ReceivingEnd? ==> |data| > patience
  {
    ghost var ops := Called(calls);
    var server := new Stream([], writing);
    var total := WriteContentChunked(server, calls);
    FailedOnError(writing, server.grants, total < 0);
    if total < 0 {
      return false, [], WritingEnd, server.grants;
    }
    assert [] + EncodedAll(ops) == EncodedAll(ops) && EncodedAll(ops) + [] == EncodedAll(ops);
    RoundTrip(ops, []);
    ok, data, blame, left := Deliver(server.output, reading, patience);
  }
}
