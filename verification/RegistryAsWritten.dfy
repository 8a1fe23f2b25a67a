/** Opening and closing as src/fs/userfs.c has them: an open takes the slot behind the last one, and a close
    lowers the count of descriptors instead of setting a slot to NULL. */
module RegistryAsWritten {
  import opened BlockChain
  import opened FileData
  import opened Options
  import opened Registry

  /** ufs_close as written: the count of descriptors is lowered instead of the slot being set to NULL, so
      the last slot falls out of the array, and a freed file stays in the list. */
  function CloseAsWritten(s: State, fd: nat): State
    requires fd < |s.slots| && s.slots[fd].Some? && s.slots[fd].value.file in s.files
  {
    var f := s.slots[fd].value.file;
    var info := s.files[f];
    s.(files := if info.refs <= 1 then s.files - {f} else s.files[f := info.(refs := info.refs - 1)],
       slots := s.slots[..|s.slots| - 1])
  }

  /** The same files, the same list and the same open descriptors. */
  ghost predicate SameRegistry(s: State, t: State)
  {
    && s.files == t.files && s.fileList == t.fileList
    && forall i: nat :: (i < |s.slots| && s.slots[i].Some?) || (i < |t.slots| && t.slots[i].Some?) ==>
         i < |s.slots| && i < |t.slots| && s.slots[i] == t.slots[i]
  }

  /** It does what is documented exactly when the closed descriptor is in the last slot and its file has
      another one. */
  lemma WrittenCloseAgrees(s: State, fd: nat)
    requires Inv(s) && fd < |s.slots| && forall slot | slot in s.slots :: slot.Some?
    ensures s.slots[fd].Some? && s.slots[fd].value.file in s.files
    ensures SameRegistry(CloseAsWritten(s, fd), Close(s, fd).0) <==>
      fd == |s.slots| - 1 && s.files[s.slots[fd].value.file].refs > 1
  {
    assert s.slots[fd] in s.slots;
    var t := CloseAsWritten(s, fd);
    var u := Close(s, fd).0;
    var f := s.slots[fd].value.file;
    if s.files[f].refs <= 1 {
      assert f in t.fileList && f !in u.fileList;
    } else if fd < |s.slots| - 1 {
      assert t.slots[fd].Some? && u.slots[fd].None?;
    }
  }

  /** What goes wrong otherwise: a closed descriptor below the last slot stays in the array while the one in the last
      slot is lost from it, though its file counts it on; and a file that is freed stays in the list. */
  lemma {:induction false} WrittenCloseLeaves(s: State, fd: nat)
    requires Inv(s) && fd < |s.slots| && forall slot | slot in s.slots :: slot.Some?
    ensures s.slots[fd].Some? && s.slots[fd].value.file in s.files
    ensures var t, f := CloseAsWritten(s, fd), s.slots[fd].value.file;
      && |t.slots| == |s.slots| - 1 && (forall k | 0 <= k < |t.slots| :: t.slots[k] == s.slots[k])
      && (fd < |t.slots| ==> t.slots[fd] == s.slots[fd])
      && (s.slots[|s.slots| - 1].Some? && s.slots[|s.slots| - 1].value.file != f ==>
            var g := s.slots[|s.slots| - 1].value.file;
            g in t.files && t.files[g].refs == CountOn(t.slots, g) + 1)
      && (f !in t.files <==> s.files[f].refs == 1) && f in t.fileList
  {
    assert s.slots[fd] in s.slots;
    var t, last := CloseAsWritten(s, fd), s.slots[|s.slots| - 1];
    assert last in s.slots && s.slots == t.slots + [last];
    CountOfSnoc(t.slots, last, last.value.file);
  }

  /** No slot is NULL, as in the array of the source, where closing sets none to NULL. */
  ghost predicate AllTaken(s: State) { forall slot | slot in s.slots :: slot.Some? }

  /** The condition of WrittenCloseAgrees on a call, in a state with no NULL slot. */
  predicate AllowedAsWritten(s: State, call: Call)
  {
    call.CallClose? ==>
      && call.fd == |s.slots| - 1 && s.slots[call.fd].Some?
      && s.slots[call.fd].value.file in s.files && s.files[s.slots[call.fd].value.file].refs > 1
  }

  /** The call as the source has it: an open takes the slot behind the last. */
  function ApplyAsWritten(s: State, call: Call): (State, Reply)
    requires Legal(s, call) && AllowedAsWritten(s, call)
  {
    if call.CallClose? then (CloseAsWritten(s, call.fd), Success)
    else if call.CallOpen? then OpenAsWritten(s, call.name, call.flags, call.address, call.junk)
    else Apply(s, call)
  }

  /** An open takes the slot behind the last. */
  function OpenAsWritten(s: State, name: string, flags: Flags, address: nat, junk: Mode): (State, Reply) {
    OpenAt(s, name, flags, address, junk, |s.slots|)
  }

  /** Without NULL slots the slot behind the last is the first free one. */
  lemma {:induction false} OpensAgree(s: State, name: string, flags: Flags, address: nat, junk: Mode)
    requires AllTaken(s)
    ensures OpenAsWritten(s, name, flags, address, junk) == Open(s, name, flags, address, junk)
  {
    PaddedSlots(s.slots, [], 0);
    assert s.slots + [] == s.slots;
  }

  /** `u` is `s` with NULL slots behind the last. */
  ghost predicate Padded(s: State, u: State) {
    && u.files == s.files && u.fileList == s.fileList && |s.slots| <= |u.slots| && u.slots[..|s.slots|] == s.slots
    && forall i | |s.slots| <= i < |u.slots| :: u.slots[i].None?
  }

  lemma {:induction false} PaddedSlots(slots: seq<Option<Desc>>, more: seq<Option<Desc>>, f: nat)
    requires (forall slot | slot in slots :: slot.Some?) && (forall slot | slot in more :: slot.None?)
    ensures FreeSlot(slots + more) == |slots|
    ensures FindDesc(slots + more, f) == FindDesc(slots, f)
  {
    if slots == [] {
      assert slots + more == more;
      NothingFound(more, f);
    } else {
      assert slots[0] in slots;
      assert (slots + more)[1..] == slots[1..] + more;
      PaddedSlots(slots[1..], more, f);
    }
  }

  lemma {:induction false} NothingFound(slots: seq<Option<Desc>>, f: nat)
    requires forall slot | slot in slots :: slot.None?
    ensures FreeSlot(slots) == 0 && FindDesc(slots, f) == None
  {
    if slots != [] {
      assert slots[0] in slots;
      NothingFound(slots[1..], f);
    }
  }

  lemma {:induction false} PaddedOpen(s: State, u: State, call: Call)
    requires AllTaken(s) && Padded(s, u) && call.CallOpen? && Legal(s, call)
    ensures Apply(u, call).1 == ApplyAsWritten(s, call).1 && Padded(ApplyAsWritten(s, call).0, Apply(u, call).0)
  {
    OpensAgree(s, call.name, call.flags, call.address, call.junk);
    var more := u.slots[|s.slots|..];
    assert u.slots == s.slots + more;
    var found := FindFile(s.files, s.fileList, call.name);
    PaddedSlots(s.slots, more, if found.Some? then found.value else 0);
  }

  lemma {:induction false} PaddedClose(s: State, u: State, call: Call)
    requires AllTaken(s) && Padded(s, u) && call.CallClose? && Legal(s, call) && AllowedAsWritten(s, call)
    ensures Apply(u, call).1 == Success && Padded(ApplyAsWritten(s, call).0, Apply(u, call).0)
  {
    assert u.slots[call.fd] == s.slots[call.fd];
  }

  lemma {:induction false} PaddedWrite(s: State, u: State, call: Call)
    requires AllTaken(s) && Padded(s, u) && call.CallWrite? && Legal(s, call)
    ensures Apply(u, call).1 == ApplyAsWritten(s, call).1 && Padded(ApplyAsWritten(s, call).0, Apply(u, call).0)
  {
    assert u.slots[call.fd] == s.slots[call.fd];
  }

  /** One call of the source does what is documented, and keeps the invariant. */
  lemma {:induction false} WrittenCallAgrees(s: State, u: State, call: Call)
    requires Inv(s) && AllTaken(s) && Padded(s, u) && Legal(s, call) && AllowedAsWritten(s, call)
    ensures Legal(u, call) && Apply(u, call).1 == ApplyAsWritten(s, call).1
    ensures Padded(ApplyAsWritten(s, call).0, Apply(u, call).0)
    ensures Inv(ApplyAsWritten(s, call).0) && AllTaken(ApplyAsWritten(s, call).0)
  {
    if call.CallClose? {
      PaddedClose(s, u, call);
      WrittenCloseKeepsInv(s, call.fd);
    } else {
      CallKeepsInv(s, call);
      if call.CallOpen? {
        OpensAgree(s, call.name, call.flags, call.address, call.junk);
        PaddedOpen(s, u, call);
      } else if call.CallWrite? {
        PaddedWrite(s, u, call);
      }
    }
  }

  lemma {:induction false} WrittenCloseKeepsInv(s: State, fd: nat)
    requires Inv(s) && AllTaken(s) && fd == |s.slots| - 1
    requires s.slots[fd].Some? && s.slots[fd].value.file in s.files && s.files[s.slots[fd].value.file].refs > 1
    ensures Inv(CloseAsWritten(s, fd)) && AllTaken(CloseAsWritten(s, fd))
  {
    var t := CloseAsWritten(s, fd);
    assert s.slots == t.slots + [s.slots[fd]];
    forall g
      ensures CountOn(s.slots, g) == CountOn(t.slots, g) + if IsOn(s.slots[fd], g) then 1 else 0
    {
      CountOfSnoc(t.slots, s.slots[fd], g);
    }
  }

  ghost predicate IsWrittenRun(run: seq<State>, calls: seq<Call>)
  {
    && |run| == |calls| + 1
    && forall i | 0 <= i < |calls| ::
         Legal(run[i], calls[i]) && AllowedAsWritten(run[i], calls[i]) && run[i + 1] == ApplyAsWritten(run[i], calls[i]).0
  }

  /** While every close meets the condition of WrittenCloseAgrees, a run of the calls as the source has them is a run
      of the documented ones: the same files, the same list, the same open descriptors and the
      same replies at every point. It keeps the registry invariant. */
  lemma {:induction false} WrittenRunAgrees(run: seq<State>, calls: seq<Call>) returns (meant: seq<State>)
    requires IsWrittenRun(run, calls) && run[0] == EMPTY
    ensures IsRun(meant, calls) && meant[0] == EMPTY
    ensures |run| == |meant| && forall i | 0 <= i < |run| :: Inv(run[i]) && SameRegistry(run[i], meant[i])
    ensures forall i | 0 <= i < |calls| :: Apply(meant[i], calls[i]).1 == ApplyAsWritten(run[i], calls[i]).1
  {
    meant := MeantRun(run, calls, |calls|);
    forall i | 0 <= i < |run|
      ensures Inv(run[i]) && SameRegistry(run[i], meant[i])
    {
      assert Agree(run[i], meant[i]);
    }
    forall i | 0 <= i < |calls|
      ensures Legal(meant[i], calls[i]) && meant[i + 1] == Apply(meant[i], calls[i]).0
      ensures Apply(meant[i], calls[i]).1 == ApplyAsWritten(run[i], calls[i]).1
    {
      assert SameStep(run[i], run[i + 1], meant[i], meant[i + 1], calls[i]);
    }
  }

  ghost predicate Agree(s: State, u: State) { Inv(s) && AllTaken(s) && Padded(s, u) }

  ghost predicate SameStep(s: State, s': State, u: State, u': State, call: Call) {
    && Legal(s, call) && AllowedAsWritten(s, call) && s' == ApplyAsWritten(s, call).0
    && Legal(u, call) && u' == Apply(u, call).0
    && Apply(u, call).1 == ApplyAsWritten(s, call).1
  }

  lemma {:induction false} MeantRun(run: seq<State>, calls: seq<Call>, n: nat) returns (meant: seq<State>)
    requires IsWrittenRun(run, calls) && run[0] == EMPTY && n <= |calls|
    ensures |meant| == n + 1 && meant[0] == EMPTY
    ensures forall i | 0 <= i <= n :: Agree(run[i], meant[i])
    ensures forall i | 0 <= i < n :: SameStep(run[i], run[i + 1], meant[i], meant[i + 1], calls[i])
  {
    if n == 0 {
      meant := [EMPTY];
    } else {
      var init := MeantRun(run, calls, n - 1);
      var next := MeantStep(run[n - 1], run[n], init[n - 1], calls[n - 1]);
      meant := init + [next];
    }
  }

  lemma {:induction false} MeantStep(s: State, s': State, u: State, call: Call) returns (u': State)
    requires Agree(s, u) && Legal(s, call) && AllowedAsWritten(s, call) && s' == ApplyAsWritten(s, call).0
    ensures Agree(s', u') && SameStep(s, s', u, u', call)
  {
    WrittenCallAgrees(s, u, call);
    u' := Apply(u, call).0;
  }
}
