/** The data path of the server as an object: handlers that change its tables and its disk in
    place, one disk step at a time, each able to die after a given number of steps. */
module ServerObject {
  import opened Content
  import opened Protocol

  datatype Answer = Died | Sent(reply: Reply)

  class ZippynfsServer {
    var epoch: nat
    var files: map<Fid, Bytes>
    var tmp: map<Fid, Bytes>
    var asyncBufs: map<Fid, seq<Write>>

    function State(): Server
      reads this
    {
      Server(epoch, files, tmp, asyncBufs)
    }

    constructor (epoch: nat, files: map<Fid, Bytes>)
      ensures State() == Server(epoch, files, map[], map[])
    {
      this.epoch, this.files, this.tmp, this.asyncBufs := epoch, files, map[], map[];
    }

    /** A crash loses the buffers; the next incarnation has a later epoch. */
    method Restart(skip: nat)
      modifies this
      ensures State() == Happen(old(State()), Event.Restart(skip))
    {
      epoch := epoch + 1 + skip;
      asyncBufs := map[];
    }

    method GetOrCreateAsyncBufs(f: Fid)
      modifies this`asyncBufs
      ensures asyncBufs == old(asyncBufs)[f := Pending(old(State()), f)]
    {
      if f !in asyncBufs {
        asyncBufs := asyncBufs[f := []];
      } else {
        assert asyncBufs == asyncBufs[f := asyncBufs[f]];
      }
    }

    /** UNSTABLE write: logged in memory and acknowledged at once. */
    method WriteUnstable(f: Fid, w: Write) returns (reply: Reply)
      requires WellSized(w)
      modifies this`asyncBufs
      ensures State() == HandleWrite(old(State()), f, w) && reply == Verf(epoch)
    {
      assert |w.data| == w.size;
      GetOrCreateAsyncBufs(f);
      asyncBufs := asyncBufs[f := asyncBufs[f] + [w]];
      reply := Verf(epoch);
    }

    /** FILE_SYNC write: copy the file, write to the copy, rename it over the file. */
    method WriteStable(f: Fid, w: Write, crashAt: nat) returns (a: Answer)
      requires WellSized(w)
      modifies this`files, this`tmp
      ensures f !in old(files) ==> a == Sent(Stale) && State() == old(State())
      ensures f in old(files) ==> State() == StableAfter(old(State()), f, w, crashAt)
      ensures f in old(files) ==> a == if crashAt < 3 then Died else Sent(Verf(epoch))
    {
      if f !in files {
        return Sent(Stale);
      }
      if crashAt == 0 {
        return Died;
      }
      tmp := tmp[f := files[f]];
      if crashAt == 1 {
        return Died;
      }
      assert |w.data| == w.size;
      tmp := tmp[f := Apply(tmp[f], w)];
      if crashAt == 2 {
        assert tmp == old(tmp)[f := Apply(files[f], w)];
        return Died;
      }
      files := files[f := tmp[f]];
      tmp := tmp - {f};
      assert tmp == old(tmp) - {f};
      return Sent(Verf(epoch));
    }

    /** COMMIT: drain the buffer onto a copy of the file and rename the copy over it. */
    method Commit(f: Fid, crashAt: nat) returns (a: Answer)
      requires forall w | w in Pending(State(), f) :: WellSized(w)
      modifies this`files, this`tmp, this`asyncBufs
      ensures f !in old(files) ==> a == Sent(Stale) && State() == old(State())
      ensures f in old(files) ==> State() == CommitAfter(old(State()), f, crashAt)
      ensures f in old(files) ==> a == if crashAt < CommitSteps(old(State()), f) then Died else Sent(Verf(epoch))
    {
      if f !in files {
        return Sent(Stale);
      }
      if crashAt == 0 {
        return Died;
      }
      var toWrite := if f in asyncBufs then asyncBufs[f] else [];
      asyncBufs := asyncBufs - {f};
      if toWrite == [] {
        return Sent(Verf(epoch));
      }
      if crashAt == 1 {
        return Died;
      }
      tmp := tmp[f := files[f]];
      var died := Drain(f, toWrite, crashAt - 2);
      if died {
        return Died;
      }
      assert toWrite[..|toWrite|] == toWrite;
      files := files[f := tmp[f]];
      tmp := tmp - {f};
      assert tmp == old(tmp) - {f};
      return Sent(Verf(epoch));
    }

    /** Apply the taken writes to the copy one by one, unless a crash comes first. */
    method Drain(f: Fid, toWrite: seq<Write>, crashAt: nat) returns (died: bool)
      requires f in tmp && forall w | w in toWrite :: WellSized(w)
      modifies this`tmp
      ensures died <==> crashAt <= |toWrite|
      ensures tmp == old(tmp)[f := ApplyAll(old(tmp)[f], toWrite[..Min(crashAt, |toWrite|)])]
    {
      var i := 0;
      assert toWrite[..0] == [];
      while i < |toWrite|
        invariant 0 <= i <= |toWrite| && i <= crashAt
        invariant tmp == old(tmp)[f := ApplyAll(old(tmp)[f], toWrite[..i])]
      {
        if crashAt == i {
          return true;
        }
        assert toWrite[i] in toWrite && |toWrite[i].data| == toWrite[i].size;
        ApplyAllSnoc(old(tmp)[f], toWrite[..i], toWrite[i]);
        assert toWrite[..i + 1] == toWrite[..i] + [toWrite[i]];
        tmp := tmp[f := Apply(tmp[f], toWrite[i])];
        i := i + 1;
      }
      return crashAt == |toWrite|;
    }

    method Read(f: Fid, offset: nat, count: nat) returns (reply: Reply)
      ensures reply == Handle(State(), ReadReq(f, offset, count)).1
      ensures f !in files ==> reply == Stale
      ensures f in files ==>
        && reply.Data?
        && |reply.data| == Min(Min(count, MAX_BUF_LEN), if |files[f]| <= offset then 0 else |files[f]| - offset)
        && forall i | 0 <= i < |reply.data| :: reply.data[i] == At(files[f], offset + i)
    {
      if f !in files {
        return Stale;
      }
      reply := Data(Pread(files[f], offset, Min(count, MAX_BUF_LEN)));
    }
  }
}
