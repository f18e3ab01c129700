/** One client of a mem-server: the state machine that cuts what arrives into packages, whatever pieces it arrives
    in, and the queue of answers that are written as far as the socket takes them. */
module MemWorker {
  import opened Framing

  datatype Status = Ready | HadSize | Processing | Closed | Error | ErrorIo

  /** What one read finds: the bytes that have arrived, and what it reports if there are none. */
  datatype End = Again | Eof | Broken
  datatype Arrival = Arrival(bytes: seq<Byte>, end: End)

  function Min(a: nat, b: nat): nat { if a <= b then a else b }

  /** The answers to the packages, one after the other. */
  function Answers(reply: seq<Byte> -> seq<Byte>, ps: seq<seq<Byte>>): seq<Byte> {
    if ps == [] then [] else Answers(reply, ps[..|ps| - 1]) + reply(ps[|ps| - 1])
  }

  /** How much of each queued answer is written. */
  ghost predicate Fits(pool: seq<seq<Byte>>, counts: seq<nat>) {
    |counts| == |pool| && forall i :: 0 <= i < |pool| ==> counts[i] <= |pool[i]|
  }

  /** What is left to write. */
  ghost function Unsent(pool: seq<seq<Byte>>, counts: seq<nat>): seq<Byte>
    requires Fits(pool, counts)
  {
    if pool == [] then [] else pool[0][counts[0]..] + Unsent(pool[1..], counts[1..])
  }

  lemma {:induction false} UnsentPush(pool: seq<seq<Byte>>, counts: seq<nat>, p: seq<Byte>)
    requires Fits(pool, counts)
    ensures Unsent(pool + [p], counts + [0]) == Unsent(pool, counts) + p
  {
    if pool == [] {
      assert pool + [p] == [p] && counts + [0] == [0];
      assert Unsent([p], [0]) == p[0..] + Unsent([p][1..], [0][1..]);
    } else {
      assert (pool + [p])[1..] == pool[1..] + [p] && (counts + [0])[1..] == counts[1..] + [0];
      UnsentPush(pool[1..], counts[1..], p);
      Reassociate(pool[0][counts[0]..], Unsent(pool[1..], counts[1..]), p);
    }
  }

  /** Writing the next k bytes of the first answer. */
  lemma UnsentWrite(pool: seq<seq<Byte>>, counts: seq<nat>, k: nat)
    requires pool != [] && Fits(pool, counts)
    requires counts[0] + k <= |pool[0]|
    ensures pool[0][counts[0]..counts[0] + k] + Unsent(pool, counts[0 := counts[0] + k]) == Unsent(pool, counts)
  {
    var c, u := counts[0], Unsent(pool[1..], counts[1..]);
    assert counts[0 := c + k][1..] == counts[1..];
    assert pool[0][c..c + k] + pool[0][c + k..] == pool[0][c..];
    Reassociate(pool[0][c..c + k], pool[0][c + k..], u);
  }

  lemma UnsentDrop(pool: seq<seq<Byte>>, counts: seq<nat>)
    requires pool != [] && Fits(pool, counts)
    requires counts[0] == |pool[0]|
    ensures Unsent(pool[1..], counts[1..]) == Unsent(pool, counts)
  {
    assert pool[0][counts[0]..] == [];
    assert [] + Unsent(pool[1..], counts[1..]) == Unsent(pool[1..], counts[1..]);
  }

  /** Everything read is in the packages handed to processing or in buff_in. */
  ghost predicate Cut(f: Format, consumed: seq<Byte>, processed: seq<seq<Byte>>, buffer: seq<Byte>) {
    0 < f.header && AllPackages(f, processed) && consumed == Flat(processed) + buffer
  }

  lemma CutMore(f: Format, consumed: seq<Byte>, processed: seq<seq<Byte>>, buffer: seq<Byte>, taken: seq<Byte>)
    requires Cut(f, consumed, processed, buffer)
    ensures Cut(f, consumed + taken, processed, buffer + taken)
  {
    Reassociate(Flat(processed), buffer, taken);
  }

  lemma CutWhole(f: Format, consumed: seq<Byte>, processed: seq<seq<Byte>>, buffer: seq<Byte>)
    requires Cut(f, consumed, processed, buffer) && IsPackage(f, buffer)
    ensures Cut(f, consumed, processed + [buffer], [])
  {
    FlatSnoc(processed, buffer);
    assert consumed + [] == consumed;
  }

  /** Everything answered is written or queued, and the socket is watched for writing just when something is queued. */
  ghost predicate Answered(reply: seq<Byte> -> seq<Byte>, processed: seq<seq<Byte>>, sent: seq<Byte>,
                           pool: seq<seq<Byte>>, counts: seq<nat>, outFlag: bool)
  {
    && Fits(pool, counts) && sent + Unsent(pool, counts) == Answers(reply, processed)
    && (outFlag <==> pool != [])
  }

  lemma AnsweredMore(reply: seq<Byte> -> seq<Byte>, processed: seq<seq<Byte>>, sent: seq<Byte>,
                     pool: seq<seq<Byte>>, counts: seq<nat>, outFlag: bool, package: seq<Byte>)
    requires Answered(reply, processed, sent, pool, counts, outFlag)
    ensures Answered(reply, processed + [package], sent, pool + [reply(package)], counts + [0], true)
  {
    UnsentPush(pool, counts, reply(package));
    Reassociate(sent, Unsent(pool, counts), reply(package));
    assert (processed + [package])[..|processed|] == processed;
  }

  /** Why the writing stops after w rounds: all is written; or the last round's write took nothing, and then the status
      says whether that was an error, or just a full buffer. */
  ghost predicate Stopped(accepts: nat -> int, broken: nat -> bool, w: nat, done: bool, was: Status, now: Status) {
    if done then now == was
    else w > 0 && accepts(w - 1) <= 0 && now == if accepts(w - 1) < 0 && broken(w - 1) then ErrorIo else was
  }

  /** The socket takes something at every write. */
  ghost predicate Willing(accepts: nat -> int) {
    forall k: nat :: accepts(k) > 0
  }

  /** What a read that finds no bytes makes of the status; `wanted` is how many were to be read. */
  function Idle(was: Status, wanted: nat, end: End): (now: Status)
    ensures wanted > 0 ==> now == match end case Again => was case Eof => Closed case Broken => ErrorIo
    ensures wanted == 0 ==> now == match end case Again => Closed case Eof => Closed case Broken => ErrorIo
  {
    if end == Broken then ErrorIo else if wanted == 0 || end == Eof then Closed else was
  }

  /** A read that finds less than was wanted takes what there is; if there is nothing it says why. */
  ghost predicate Short(was: Status, now: Status, wanted: nat, a: Arrival, taken: seq<Byte>) {
    |a.bytes| < wanted && taken == a.bytes &&
    now == if a.bytes != [] then was else Idle(was, wanted, a.end)
  }

  /** Reading the rest of a body, behind `buffer`: then the worker is ready for the next header, or still waits. */
  ghost predicate BodyRead(f: Format, buffer: seq<Byte>, now: Status, a: Arrival, taken: seq<Byte>) {
    f.header <= |buffer| <= Size(f, buffer) &&
    var wanted := Size(f, buffer) - |buffer|;
    if wanted <= |a.bytes| then taken == a.bytes[..wanted] && now == Ready
    else Short(HadSize, now, wanted, a, taken)
  }

  class Worker {
    const format: Format
    const reply: seq<Byte> -> seq<Byte>

    var status: Status
    var outFlag: bool
    var buff_in: array?<Byte>
    var buff_in_count: nat
    var buff_in_size: nat
    var buff_in_needtofill: nat
    var pool_out: seq<seq<Byte>>
    var pool_out_buffcount: seq<nat>

    ghost var consumed: seq<Byte>
    ghost var processed: seq<seq<Byte>>
    ghost var sent: seq<Byte>

    /** The bytes in buff_in. */
    ghost function Buffer(): seq<Byte>
      reads this`buff_in, this`buff_in_count, buff_in
    {
      if buff_in != null && buff_in_count <= buff_in.Length then buff_in[..buff_in_count] else []
    }

    ghost predicate Room()
      reads this`buff_in, this`buff_in_count, this`buff_in_size, this`buff_in_needtofill, buff_in
    {
      && (buff_in == null ==> buff_in_size == 0)
      && (buff_in != null ==> buff_in.Length == buff_in_size)
      && buff_in_count + buff_in_needtofill == buff_in_size
    }

    /** Waiting for the rest of a header, or for the rest of a body. */
    ghost predicate InHeader()
      reads this`buff_in, this`buff_in_count, this`buff_in_size, this`buff_in_needtofill, buff_in
    {
      Room() && (buff_in == null || (buff_in_size == format.header && buff_in_needtofill > 0))
    }

    ghost predicate InBody()
      reads this`buff_in, this`buff_in_count, this`buff_in_size, this`buff_in_needtofill, buff_in
    {
      && Room() && buff_in != null && format.header <= buff_in_count
      && buff_in_size == Size(format, Buffer())
    }

    ghost predicate Accounts()
      reads this, buff_in
    {
      && Cut(format, consumed, processed, Buffer())
      && Answered(reply, processed, sent, pool_out, pool_out_buffcount, outFlag)
    }

    ghost predicate Valid()
      reads this, buff_in
    {
      Accounts() && Waiting()
    }

    /** For the rest of a header or of a body, as the status says, if it still says so. */
    ghost predicate Waiting()
      reads this`status, this`buff_in, this`buff_in_count, this`buff_in_size, this`buff_in_needtofill, buff_in
    {
      && status != Processing
      && (status.Ready? ==> InHeader())
      && (status.HadSize? ==> InBody() && buff_in_needtofill > 0)
      && (InHeader() || (InBody() && buff_in_needtofill > 0))
    }

    constructor (format: Format, reply: seq<Byte> -> seq<Byte>)
      requires 0 < format.header
      ensures Valid() && status == Ready && consumed == [] && sent == []
      ensures this.format == format && this.reply == reply
    {
      this.format, this.reply := format, reply;
      status, outFlag := Ready, false;
      buff_in, buff_in_count, buff_in_size, buff_in_needtofill := null, 0, 0, 0;
      pool_out, pool_out_buffcount := [], [];
      consumed, processed, sent := [], [], [];
    }

    /** fillbuffin.  A read of no bytes returns 0, so an empty body marks the client closed; In undoes that. */
    method Fill(a: Arrival) returns (taken: seq<Byte>)
      requires Room() && buff_in != null
      modifies this`status, this`buff_in_count, this`buff_in_needtofill, buff_in
      ensures Room() && Buffer() == old(Buffer()) + taken
      ensures buff_in_count == old(buff_in_count) + |taken|
      ensures taken != [] ==> status == old(status)
      ensures status == old(status) || status == Closed || status == ErrorIo
      ensures taken <= a.bytes
      ensures old(!status.Error? && !status.ErrorIo?) ==> |taken| == Min(|a.bytes|, old(buff_in_needtofill))
      ensures old(status.Error? || status.ErrorIo?) ==> taken == [] && status == old(status)
      ensures old(!status.Error? && !status.ErrorIo?) ==>
                status == if taken != [] then old(status) else Idle(old(status), old(buff_in_needtofill), a.end)
    {
      taken := [];
      if status == Error || status == ErrorIo {
        return;
      }
      var n := Min(buff_in_size - buff_in_count, buff_in_needtofill);
      var nn := Min(n, |a.bytes|);
      if nn > 0 {
        taken := a.bytes[..nn];
        ghost var before := Buffer();
        for k := 0 to nn
          modifies buff_in
          invariant buff_in[..buff_in_count + k] == before + taken[..k]
        {
          buff_in[buff_in_count + k] := taken[k];
        }
        buff_in_count := buff_in_count + nn;
        buff_in_needtofill := buff_in_needtofill - nn;
      } else if n == 0 || a.end == Eof {
        status := if n == 0 && a.end == Broken then ErrorIo else Closed;
      } else if a.end == Broken {
        status := ErrorIo;
      }
    }

    /** The READY branch: the header, up to the size it tells. */
    method ReadHeader(a: Arrival) returns (taken: seq<Byte>)
      requires Accounts() && InHeader() && status == Ready
      modifies this`status, this`buff_in, this`buff_in_count, this`buff_in_size, this`buff_in_needtofill
      modifies this`consumed, buff_in
      ensures Accounts() && consumed == old(consumed) + taken && taken <= a.bytes
      ensures buff_in == old(buff_in) || fresh(buff_in)
      ensures status.HadSize? ==> InBody()
      ensures !status.HadSize? ==> InHeader() && status != Processing
      ensures |old(Buffer())| < format.header && Buffer() == old(Buffer()) + taken
      ensures var wanted := format.header - |old(Buffer())|;
              if wanted <= |a.bytes| then taken == a.bytes[..wanted] && status == HadSize
              else Short(Ready, status, wanted, a, taken)
    {
      Begin();
      taken := Fill(a);
      CutMore(format, consumed, processed, old(Buffer()), taken);
      consumed := consumed + taken;
      if buff_in_needtofill == 0 {
        Enlarge();
      }
    }

    /** At the first byte of a package there is no buffer yet. */
    method Begin()
      requires InHeader() && 0 < format.header
      modifies this`buff_in, this`buff_in_count, this`buff_in_size, this`buff_in_needtofill
      ensures InHeader() && buff_in != null && Buffer() == old(Buffer()) && (buff_in == old(buff_in) || fresh(buff_in))
    {
      if buff_in == null || buff_in_size == 0 {
        buff_in := new Byte[format.header];
        buff_in_count, buff_in_size, buff_in_needtofill := 0, format.header, format.header;
      }
    }

    /** The header is complete: buff_in is made to hold the whole package. */
    method Enlarge()
      requires Room() && buff_in != null && buff_in_count == buff_in_size == format.header
      modifies this`status, this`buff_in, this`buff_in_size, this`buff_in_needtofill
      ensures InBody() && status == HadSize && fresh(buff_in) && Buffer() == old(Buffer())
    {
      assert buff_in[..format.header] == Buffer() == Buffer()[..format.header];
      buff_in_size := format.header + format.body(buff_in[..format.header]);
      Realloc(buff_in_size);
      buff_in_needtofill := buff_in_size - format.header;
      status := HadSize;
    }

    method Realloc(size: nat)
      requires buff_in != null && buff_in_count <= buff_in.Length && buff_in_count <= size
      modifies this`buff_in
      ensures buff_in != null && fresh(buff_in) && buff_in.Length == size && Buffer() == old(Buffer())
    {
      var larger := new Byte[size];
      for k := 0 to buff_in_count
        modifies larger
        invariant larger[..k] == buff_in[..k]
      {
        larger[k] := buff_in[k];
      }
      buff_in := larger;
    }

    /** Processing, and fillbuffout with the answer. */
    method Process(package: seq<Byte>)
      requires Cut(format, consumed, processed, package) && IsPackage(format, package)
      requires Answered(reply, processed, sent, pool_out, pool_out_buffcount, outFlag)
      modifies this`pool_out, this`pool_out_buffcount, this`outFlag, this`processed
      ensures Cut(format, consumed, processed, []) && processed == old(processed) + [package]
      ensures Answered(reply, processed, sent, pool_out, pool_out_buffcount, outFlag)
    {
      CutWhole(format, consumed, processed, package);
      AnsweredMore(reply, processed, sent, pool_out, pool_out_buffcount, outFlag, package);
      pool_out, pool_out_buffcount := pool_out + [reply(package)], pool_out_buffcount + [0];
      outFlag := true;
      processed := processed + [package];
    }

    /** The HADSIZE branch: the body, then the package is processed and its answer queued.  With an empty body the
        package is answered whatever the read of no bytes reports, even an error. */
    method ReadBody(a: Arrival) returns (taken: seq<Byte>)
      requires Accounts() && InBody() && status == HadSize
      modifies this, buff_in
      ensures Valid() && consumed == old(consumed) + taken && taken <= a.bytes && sent == old(sent)
      ensures buff_in == old(buff_in) || buff_in == null
      ensures BodyRead(format, old(Buffer()), status, a, taken)
    {
      taken := Fill(a);
      assert Buffer()[..format.header] == old(Buffer())[..format.header];
      CutMore(format, consumed, processed, old(Buffer()), taken);
      consumed := consumed + taken;
      if buff_in_needtofill == 0 {
        Finish();
      }
    }

    /** The package is whole. */
    method Finish()
      requires Accounts() && IsPackage(format, Buffer())
      requires buff_in != null && buff_in_count == buff_in_size == buff_in.Length
      modifies this`status, this`pool_out, this`pool_out_buffcount, this`outFlag, this`processed
      modifies this`buff_in, this`buff_in_count, this`buff_in_size, this`buff_in_needtofill
      ensures Accounts() && InHeader() && buff_in == null && status == Ready
      ensures processed == old(processed) + [old(Buffer())]
    {
      status := Processing;
      assert buff_in[..buff_in_size] == Buffer();
      Process(buff_in[..buff_in_size]);
      Release();
      status := Ready;
    }

    method Release()
      modifies this`buff_in, this`buff_in_count, this`buff_in_size, this`buff_in_needtofill
      ensures InHeader() && buff_in == null && Buffer() == []
    {
      buff_in := null;
      buff_in_size, buff_in_count, buff_in_needtofill := 0, 0, 0;
    }

    /** worker_in.  Of what the two reads find it takes t1 and t2, in this order. */
    method In(a1: Arrival, a2: Arrival) returns (t1: seq<Byte>, t2: seq<Byte>)
      requires Valid()
      modifies this, buff_in
      ensures Valid() && (buff_in == old(buff_in) || fresh(buff_in) || buff_in == null)
      ensures t1 <= a1.bytes && t2 <= a2.bytes && consumed == old(consumed) + t1 + t2 && sent == old(sent)
      ensures processed == Packages(format, consumed) && Buffer() == Rest(format, consumed)
      ensures old(status) != Ready && old(status) != HadSize ==> t1 == t2 == [] && status == old(status)
      ensures old(status) == HadSize ==> t1 == [] && BodyRead(format, old(Buffer()), status, a2, t2)
      ensures old(status) == Ready ==>
                |old(Buffer())| < format.header &&
                var wanted := format.header - |old(Buffer())|;
                if wanted <= |a1.bytes| then t1 == a1.bytes[..wanted] && BodyRead(format, old(Buffer()) + t1, status, a2, t2)
                else t2 == [] && Short(Ready, status, wanted, a1, t1)
    {
      t1, t2 := [], [];
      ghost var was := consumed;
      assert was + [] == was;
      if status == Ready {
        t1 := ReadHeader(a1);
      }
      assert was + t1 + [] == was + t1 == consumed;
      if status == HadSize {
        t2 := ReadBody(a2);
      }
      assert consumed == was + t1 + t2;
      Framed();
    }

    /** What has been processed is the framing of all that was read; buff_in holds the rest. */
    lemma Framed()
      requires Valid()
      ensures processed == Packages(format, consumed) && Buffer() == Rest(format, consumed)
    {
      FramingIsUnique(format, processed, Buffer());
    }

    /** What has been written and what is queued, as one stream. */
    ghost function Output(): seq<Byte>
      requires Fits(pool_out, pool_out_buffcount)
      reads this
    {
      sent + Unsent(pool_out, pool_out_buffcount)
    }

    /** One round of worker_out: writes from the first answer, and drops it when it is all written. */
    method WriteOne(accept: int, broken: bool, was: int) returns (nn: int)
      requires Fits(pool_out, pool_out_buffcount) && pool_out != [] && was > 0
      modifies this`status, this`pool_out, this`pool_out_buffcount, this`sent
      ensures Fits(pool_out, pool_out_buffcount) && Output() == old(Output()) && old(sent) <= sent
      ensures status == if nn < 0 && broken then ErrorIo else old(status)
      ensures var left := |old(pool_out[0])| - old(pool_out_buffcount[0]);
              && nn == (if left == 0 then was else if accept < 0 then -1 else Min(accept, left))
              && |sent| == |old(sent)| + (if left == 0 || accept < 0 then 0 else nn)
              && |pool_out| == |old(pool_out)| - (if left == 0 || nn == left then 1 else 0)
      ensures nn > 0 ==>
                |Unsent(pool_out, pool_out_buffcount)| + |pool_out| <
                old(|Unsent(pool_out, pool_out_buffcount)| + |pool_out|)
    {
      nn := was;
      var c, size := pool_out_buffcount[0], |pool_out[0]|;
      if c < size {
        nn := if accept < 0 then -1 else Min(accept, size - c);
        if nn < 0 {
          if broken { status := ErrorIo; }
        } else {
          Wrote(nn);
        }
      }
      if pool_out_buffcount[0] >= size {
        UnsentDrop(pool_out, pool_out_buffcount);
        pool_out, pool_out_buffcount := pool_out[1..], pool_out_buffcount[1..];
      }
    }

    /** The next k bytes of the first answer are written. */
    method Wrote(k: nat)
      requires Fits(pool_out, pool_out_buffcount) && pool_out != [] && pool_out_buffcount[0] + k <= |pool_out[0]|
      modifies this`pool_out_buffcount, this`sent
      ensures Fits(pool_out, pool_out_buffcount) && Output() == old(Output()) && old(sent) <= sent
      ensures |sent| == |old(sent)| + k
      ensures pool_out_buffcount[0] == old(pool_out_buffcount[0]) + k
      ensures |Unsent(pool_out, pool_out_buffcount)| == old(|Unsent(pool_out, pool_out_buffcount)|) - k
    {
      var c := pool_out_buffcount[0];
      UnsentWrite(pool_out, pool_out_buffcount, k);
      var wrote := pool_out[0][c..c + k];
      Reassociate(sent, wrote, Unsent(pool_out, pool_out_buffcount[0 := c + k]));
      pool_out_buffcount := pool_out_buffcount[0 := c + k];
      sent := sent + wrote;
    }

    /** worker_out.  `accepts(k)` is the outcome of the write in round k: how much the socket would take, or an error that
        `broken(k)` says is not just a full buffer. */
    method Out(accepts: nat -> int, broken: nat -> bool) returns (ghost w: nat)
      requires Valid()
      modifies this`status, this`outFlag, this`pool_out, this`pool_out_buffcount, this`sent
      ensures Valid() && old(sent) <= sent
      ensures old(status) == ErrorIo ==> sent == old(sent) && status == ErrorIo && pool_out == old(pool_out)
      ensures old(status) != ErrorIo ==> Stopped(accepts, broken, w, pool_out == [], old(status), status)
      ensures Willing(accepts) && old(status) != ErrorIo ==> sent == Answers(reply, processed) && !outFlag
    {
      w := Drain(accepts, broken);
      assert Buffer() == old(Buffer());
      assert Waiting();
      AllWritten();
    }

    method Drain(accepts: nat -> int, broken: nat -> bool) returns (ghost w: nat)
      requires Answered(reply, processed, sent, pool_out, pool_out_buffcount, outFlag)
      modifies this`status, this`outFlag, this`pool_out, this`pool_out_buffcount, this`sent
      ensures Answered(reply, processed, sent, pool_out, pool_out_buffcount, outFlag) && old(sent) <= sent
      ensures old(status) == ErrorIo ==> sent == old(sent) && status == ErrorIo && pool_out == old(pool_out)
      ensures old(status) != ErrorIo ==> Stopped(accepts, broken, w, pool_out == [], old(status), status)
      ensures status == old(status) || status == ErrorIo
      ensures Willing(accepts) && old(status) != ErrorIo ==> pool_out == []
    {
      w := 0;
      if status != ErrorIo && pool_out != [] {
        w := WriteAll(accepts, broken);
        if pool_out == [] {
          outFlag := false;
        }
      }
    }

    lemma AllWritten()
      requires Answered(reply, processed, sent, pool_out, pool_out_buffcount, outFlag)
      ensures pool_out == [] ==> sent == Answers(reply, processed) && !outFlag
    {
      assert sent + [] == sent;
    }

    method WriteAll(accepts: nat -> int, broken: nat -> bool) returns (ghost w: nat)
      requires Answered(reply, processed, sent, pool_out, pool_out_buffcount, true)
      modifies this`status, this`pool_out, this`pool_out_buffcount, this`sent
      ensures Answered(reply, processed, sent, pool_out, pool_out_buffcount, pool_out != []) && old(sent) <= sent
      ensures Stopped(accepts, broken, w, pool_out == [], old(status), status)
      ensures Willing(accepts) ==> pool_out == []
    {
      var nn, k: nat := 1, 0;
      while nn > 0 && pool_out != []
        invariant Fits(pool_out, pool_out_buffcount) && Output() == old(Output()) && old(sent) <= sent
        invariant nn > 0 ==> status == old(status)
        invariant nn <= 0 ==> pool_out != [] && Stopped(accepts, broken, k, false, old(status), status)
        decreases nn > 0, |Unsent(pool_out, pool_out_buffcount)| + |pool_out|
      {
        nn := WriteOne(accepts(k), broken(k), nn);
        k := k + 1;
      }
      w := k;
    }
  }
}
