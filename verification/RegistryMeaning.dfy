/** What each call of the file system means for the names, the files and the open descriptors, in any state
    that keeps the registry invariant. */
module RegistryMeaning {
  import opened BlockChain
  import opened FileData
  import opened Options
  import opened Registry

  /** A live file has the name. */
  ghost predicate Exists(s: State, name: string) { exists f :: f in s.files && s.files[f].name == Some(name) }

  /** All slots but one are as before, and that one is new or was NULL, with no NULL slot below it. */
  ghost predicate TookSlot(s: State, u: State, fd: nat) {
    && fd <= |s.slots| && |u.slots| == (if fd < |s.slots| then |s.slots| else |s.slots| + 1) && fd < |u.slots|
    && (forall k | 0 <= k < |s.slots| && k != fd :: u.slots[k] == s.slots[k])
    && (fd < |s.slots| ==> s.slots[fd].None?) && (forall k | 0 <= k < fd :: s.slots[k].Some?)
  }

  /** All files but one are as before. */
  ghost predicate OtherFilesSame(s: State, u: State, f: nat) {
    forall g | g != f :: (g in u.files <==> g in s.files) && (g in s.files ==> u.files[g] == s.files[g])
  }

  lemma {:induction false} FoundIff(s: State, name: string)
    requires Inv(s)
    ensures FindFile(s.files, s.fileList, name).Some? <==> Exists(s, name)
    ensures forall f | f in s.files && s.files[f].name == Some(name) :: FindFile(s.files, s.fileList, name) == Some(f)
  {
    var found := FindFile(s.files, s.fileList, name);
    if found.Some? {
      assert found.value in s.files && s.files[found.value].name == Some(name);
    }
    forall f | f in s.files && s.files[f].name == Some(name)
      ensures found == Some(f)
    {
      assert f in s.fileList && Named(s.files, f, name);
    }
  }

  /** The first descriptor on the file, by its index. */
  lemma {:induction false} FirstOn(slots: seq<Option<Desc>>, f: nat) returns (k: nat)
    requires exists i :: 0 <= i < |slots| && IsOn(slots[i], f)
    ensures k < |slots| && FindDesc(slots, f) == slots[k] && IsOn(slots[k], f)
    ensures forall j | 0 <= j < k :: !IsOn(slots[j], f)
  {
    if IsOn(slots[0], f) {
      k := 0;
    } else {
      var i :| 0 <= i < |slots| && IsOn(slots[i], f);
      assert IsOn(slots[1..][i - 1], f);
      var rest := FirstOn(slots[1..], f);
      k := rest + 1;
      forall j | 0 <= j < k
        ensures !IsOn(slots[j], f)
      {
        if j > 0 { assert !IsOn(slots[1..][j - 1], f); }
      }
    }
  }

  /** Opening an existing file gives a descriptor on the file of that name, in the first free slot, with the offset
      of the first descriptor that is open on it. The file keeps its name and contents. */
  lemma {:induction false} OpenExisting(s: State, name: string, flags: Flags, address: nat, junk: Mode, f: nat) returns (k: nat)
    requires Inv(s) && !flags.create && f in s.files && s.files[f].name == Some(name)
    ensures k < |s.slots| && s.slots[k].Some? && s.slots[k].value.file == f
    ensures forall j | 0 <= j < k && s.slots[j].Some? :: s.slots[j].value.file != f
    ensures var (u, reply) := Open(s, name, flags, address, junk);
      && reply.Descriptor? && TookSlot(s, u, reply.fd) && OtherFilesSame(s, u, f)
      && u.slots[reply.fd].Some? && u.slots[reply.fd].value.file == f
      && u.slots[reply.fd].value.offset == s.slots[k].value.offset
      && f in u.files && u.files[f] == FileInfo(Some(name), s.files[f].refs + 1, s.files[f].contents)
  {
    FoundIff(s, name);
    CountIsPositive(s.slots, f);
    k := FirstOn(s.slots, f);
  }

  /** Creating a name that no file has gives a descriptor at offset 0 on a new empty file of that name. */
  lemma {:induction false} OpenNew(s: State, name: string, flags: Flags, address: nat, junk: Mode)
    requires Inv(s) && flags.create && !Exists(s, name) && address !in s.files
    ensures var (u, reply) := Open(s, name, flags, address, junk);
      && reply.Descriptor? && TookSlot(s, u, reply.fd) && OtherFilesSame(s, u, address)
      && u.slots[reply.fd].Some? && u.slots[reply.fd].value.file == address && u.slots[reply.fd].value.offset == 0
      && address in u.files && u.files[address] == FileInfo(Some(name), 1, [])
  {
    FoundIff(s, name);
  }

  /** An open fails exactly when it is to create a name that exists or to open one that does not, and then
      nothing changes. */
  lemma {:induction false} OpenFails(s: State, name: string, flags: Flags, address: nat, junk: Mode)
    requires Inv(s) && address !in s.files
    ensures var (u, reply) := Open(s, name, flags, address, junk);
      && (reply == Failure(NoPermission) <==> flags.create && Exists(s, name))
      && (reply == Failure(NoFile) <==> !flags.create && !Exists(s, name))
      && (reply.Descriptor? <==> (flags.create <==> !Exists(s, name)))
      && (!reply.Descriptor? ==> u == s)
  {
    FoundIff(s, name);
    if flags.create && !Exists(s, name) {
      OpenNew(s, name, flags, address, junk);
    } else if !flags.create && Exists(s, name) {
      var f :| f in s.files && s.files[f].name == Some(name);
      var _ := OpenExisting(s, name, flags, address, junk, f);
    }
  }

  /** What the flags of an open allow: to write exactly if they ask for reading and writing, or for writing and not for
      reading; to read likewise. Without any of the three the mode is what malloc left. */
  lemma {:induction false} OpenAllows(s: State, name: string, flags: Flags, address: nat, junk: Mode, data: seq<byte>)
    requires Inv(s) && address !in s.files && Open(s, name, flags, address, junk).1.Descriptor? && data != []
    ensures var (u, reply) := Open(s, name, flags, address, junk);
      && reply.fd < |u.slots| && u.slots[reply.fd].Some?
      && (flags.readWrite || flags.readOnly || flags.writeOnly ==>
            && (Write(u, reply.fd, data).1 == Failure(NoPermission) <==> flags.readOnly && !flags.readWrite)
            && (u.slots[reply.fd].value.mode.WriteOnly? <==> !flags.readOnly && !flags.readWrite))
      && (!flags.readWrite && !flags.readOnly && !flags.writeOnly ==> u.slots[reply.fd].value.mode == junk)
  {
    OpenFails(s, name, flags, address, junk);
    var (u, reply) := Open(s, name, flags, address, junk);
    if flags.create {
      OpenNew(s, name, flags, address, junk);
    } else {
      var f :| f in s.files && s.files[f].name == Some(name);
      var _ := OpenExisting(s, name, flags, address, junk, f);
    }
    assert u.slots[reply.fd].value.file in u.files;
  }

  /** Closing empties the slot and no other. The file is gone exactly when no other descriptor was open on it;
      otherwise it keeps its name and contents, and counts the descriptors that are left. */
  lemma {:induction false} CloseMeans(s: State, fd: nat)
    requires Inv(s) && fd < |s.slots|
    ensures var (u, reply) := Close(s, fd);
      if s.slots[fd].None? then reply == Failure(NoFile) && u == s
      else
        var f := s.slots[fd].value.file;
        && reply == Success && OtherFilesSame(s, u, f) && f in s.files
        && |u.slots| == |s.slots| && u.slots[fd].None? && (forall k | 0 <= k < |s.slots| && k != fd :: u.slots[k] == s.slots[k])
        && (f !in u.files <==> forall k | 0 <= k < |s.slots| && k != fd && s.slots[k].Some? :: s.slots[k].value.file != f)
        && (f in u.files ==> u.files[f] == FileInfo(s.files[f].name, s.files[f].refs - 1, s.files[f].contents))
        && (forall g :: g in u.fileList <==> g in s.fileList && g in u.files)
  {
    if s.slots[fd].Some? {
      var f := s.slots[fd].value.file;
      assert s.slots[fd] in s.slots;
      var u := Close(s, fd).0;
      CloseKeepsInv(s, fd);
      CountOfUpdate(s.slots, fd, None, f);
      CountIsPositive(u.slots, f);
      OthersOn(s.slots, fd, f, u.slots);
    }
  }

  /** Some other slot is on the file exactly when one is with this slot set to NULL. */
  lemma {:induction false} OthersOn(slots: seq<Option<Desc>>, fd: nat, f: nat, rest: seq<Option<Desc>>)
    requires fd < |slots| && rest == slots[fd := None]
    ensures (exists i :: 0 <= i < |slots| && IsOn(rest[i], f)) <==>
      !forall k | 0 <= k < |slots| && k != fd && slots[k].Some? :: slots[k].value.file != f
  {
    if i :| 0 <= i < |slots| && IsOn(rest[i], f) {
      assert i != fd && slots[i].Some? && slots[i].value.file == f;
    }
    if !forall k | 0 <= k < |slots| && k != fd && slots[k].Some? :: slots[k].value.file != f {
      var k :| 0 <= k < |slots| && k != fd && slots[k].Some? && slots[k].value.file == f;
      assert IsOn(rest[k], f);
    }
  }

  /** Deleting succeeds exactly if a file has the name. Then none has it any more, and nothing else changes:
      the file, its contents and all descriptors stay. */
  lemma {:induction false} DeleteMeans(s: State, name: string)
    requires Inv(s)
    ensures var (u, reply) := Delete(s, name);
      && (reply == Success <==> Exists(s, name)) && (reply == NotFound <==> !Exists(s, name))
      && !Exists(u, name) && u.slots == s.slots && u.fileList == s.fileList && u.files.Keys == s.files.Keys
      && forall f | f in s.files ::
           && u.files[f].refs == s.files[f].refs && u.files[f].contents == s.files[f].contents
           && u.files[f].name == if s.files[f].name == Some(name) then None else s.files[f].name
  {
    FoundIff(s, name);
  }

  /** A write answers with the number of bytes kept: all but the last eight if their number is a multiple of eight, and
      at most MAX_FILE_SIZE. They are the contents of the file afterwards, through whatever descriptor,
      and the offset of this one. Nothing else changes, and nothing at all when it fails. */
  lemma {:induction false} WriteMeans(s: State, fd: nat, data: seq<byte>)
    requires Inv(s) && fd < |s.slots|
    ensures var (u, reply) := Write(s, fd, data);
      && (reply == Failure(NoFile) <==> s.slots[fd].None?)
      && (reply == Failure(NoPermission) <==> s.slots[fd].Some? && s.slots[fd].value.mode.ReadOnly?)
      && (reply.Written? <==> s.slots[fd].Some? && !s.slots[fd].value.mode.ReadOnly? && data != [])
      && (!reply.Written? ==> u == s)
      && (reply.Written? ==>
            var size := if |data| > 1073741824 then 1073741824 else |data|;
            var f := s.slots[fd].value.file;
            && reply.count == (if size % 8 == 0 then size - 8 else size)
            && f in s.files && f in u.files && OtherFilesSame(s, u, f) && u.fileList == s.fileList
            && u.files[f] == FileInfo(s.files[f].name, s.files[f].refs, data[..reply.count])
            && u.slots == s.slots[fd := Some(Desc(f, reply.count, s.slots[fd].value.mode))])
  {
    if s.slots[fd].Some? {
      assert s.slots[fd] in s.slots;
      if data != [] {
        KeptIsSize(if |data| > MAX_FILE_SIZE then MAX_FILE_SIZE else |data|);
      }
    }
  }
}
