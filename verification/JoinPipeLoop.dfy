/** joinpipe's loop over the read buffer and the checksum, and what splitpipe wrote put back together by it. */
module JoinPipeLoop {
  import opened Octets
  import opened Md5Stream
  import opened SessionFormat
  import opened SplitPipe
  import J = JoinPipe
  import JoinOrder

  class Joinpipe {
    const buffer: array<Byte>
    const md5: MD5Summer

    var uuid: Bytes
    var numVolumes: nat
    var status: J.Status

    /** What is left of the open volume, the volumes still to be inserted, and what was written. */
    var infd: Bytes
    var volumes: seq<Bytes>
    var stdout: Bytes

    ghost predicate Valid()
      reads this, buffer, md5, md5.context, md5.context.buffer
    {
      buffer.Length == 0x1_0000 && md5.Valid() && md5.Fed() == stdout && buffer != md5.context.buffer
    }

    ghost function State(): J.Join
      requires Valid()
      reads this, buffer, md5, md5.context, md5.context.buffer
    {
      J.Join(uuid, numVolumes, stdout, buffer[..], infd, volumes, status)
    }

    constructor (f: Compression, inserted: seq<Bytes>)
      requires inserted != []
      ensures Valid() && md5.context.process == f && State() == J.Start(inserted, buffer[..])
      ensures fresh(buffer) && fresh(md5) && fresh(md5.context) && fresh(md5.context.buffer)
    {
      buffer := new Byte[0x1_0000](_ => 0);
      md5 := new MD5Summer(f);
      uuid, numVolumes, status, stdout := [], 0, J.Reading, [];
      infd, volumes := inserted[0], inserted[1..];
    }

    method OpenNext()
      requires Valid()
      modifies this`infd, this`volumes, this`status
      ensures Valid() && State() == J.OpenNext(old(State()))
    {
      if volumes == [] {
        status := J.NoMoreVolumes;
      } else {
        infd, volumes := volumes[0], volumes[1..];
      }
    }

    /** readn of the content of a stretch into the buffer, the header having been read. */
    method FillBuffer(content: Bytes)
      requires Valid() && |content| < 0x1_0000
      modifies buffer
      ensures Valid() && buffer[..] == J.Filled(old(buffer[..]), content)
    {
      forall i | 0 <= i < |content| {
        buffer[i] := content[i];
      }
      assert forall i :: 0 <= i < |content| ==> buffer[i] == content[i];
    }

    /** A Data stretch goes to standard output and into the checksum. */
    method WriteData(content: Bytes)
      requires Valid() && 0 < |content| < 0x1_0000
      modifies this`stdout, md5.context, md5.context.buffer
      ensures Valid() && State() == old(State()).(out := old(stdout) + content)
    {
      md5.Feed(content);
      stdout := stdout + content;
    }

    /** What the stretch that was read does. */
    method Take(kind: Byte, content: Bytes)
      requires Valid() && |content| < 0x1_0000
      modifies this, md5.context, md5.context.buffer
      ensures Valid() && State() == J.Take(md5.context.process, old(State()), kind, content)
    {
      hide Md5Context.Valid;
      if kind == SESSION_UUID {
        if uuid == [] {
          uuid := content;
        } else if uuid != content {
          OpenNext();
        }
      } else if kind == VOLUME_NUMBER {
        if FromBe16(buffer[..2]) != numVolumes {
          OpenNext();
        } else {
          numVolumes := numVolumes + 1;
        }
      } else if kind == DATA {
        if |content| == 0 {
          status := J.Failed;
        } else {
          WriteData(content);
        }
      } else if kind == VOLUME_EOF {
        OpenNext();
      } else if kind == SESSION_EOF {
        status := J.Done;
      } else if kind == MD5_CHECKSUM {
        var sum := md5.Get();
        if sum != content {
          status := J.Failed;
        }
      }
    }

    /** One turn of the loop. */
    method ReadStretch()
      requires Valid() && status == J.Reading
      modifies this, buffer, md5.context, md5.context.buffer
      ensures Valid() && State() == J.Step(md5.context.process, old(State()))
    {
      hide Md5Context.Valid, J.Take;
      if |infd| < 3 || |infd| < 3 + J.ContentSize(infd) {
        status := J.Failed;
        return;
      }
      var size, kind := J.ContentSize(infd), infd[2];
      var content := infd[3..3 + size];
      infd := infd[3 + size..];
      FillBuffer(content);
      Take(kind, content);
    }

    /** The whole program. */
    method Join()
      requires Valid()
      modifies this, buffer, md5.context, md5.context.buffer
      ensures Valid() && State() == J.Complete(md5.context.process, old(State()))
    {
      hide Md5Context.Valid, J.Step;
      ghost var f := md5.context.process;
      while status == J.Reading
        invariant Valid() && J.Complete(f, State()) == J.Complete(f, old(State()))
        decreases |volumes|, |infd| + if status == J.Reading then 1 else 0
      {
        ghost var st := State();
        ReadStretch();
        StepShrinks(f, st);
      }
    }
  }

  lemma StepShrinks(f: Compression, st: J.Join)
    requires st.status == J.Reading
    ensures var st' := J.Step(f, st);
            |st'.next| < |st.next| ||
            (|st'.next| == |st.next| && (|st'.input| < |st.input| || (st'.input == st.input && st'.status != J.Reading)))
  {
  }

  // ---- There and back -------------------------------------------------------------------------

  /** Whatever way the input arrived and the pipe took it, joining the volumes of a finished run in order ends
      well exactly when no stretch was started with three octets left in its volume and there are at most
      65536 volumes; and then what comes out is what went in. */
  lemma {:induction false} SplitThenJoin(p: Params, run: seq<Action>, scratch: J.Scratch)
    requires LegalRun(p, START, run) && Run(p, START, run).finished && InputOf(run) != [] && Encodable(p.session)
    ensures var volumes := Run(p, START, run).closed;
            volumes != [] &&
            var end := J.Complete(p.f, J.Start(volumes, scratch));
            && (end.status == J.Done <==> NeverStartsEmpty(p, START, run) && |volumes| <= 0x1_0000)
            && (end.status == J.Done ==> end.out == InputOf(run))
  {
    hide J.Complete, J.Start, LegalRun, Run, InputOf, NeverStartsEmpty, NoEmptyStretch;
    var vols := SplitWritesASession(p, run);
    JoinOrder.JoinInOrder(p.f, p.session, vols, Run(p, START, run).closed, scratch);
  }
}
