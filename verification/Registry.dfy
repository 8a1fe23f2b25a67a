/** The files and descriptors of the in-memory file system (src/fs/userfs.c): open, close, delete and
    write over the list of files and the array of descriptors. A closed descriptor leaves its slot NULL
    for the next open, and a file that is freed leaves the list. */
module Registry {
  import opened BlockChain
  import opened FileData
  import opened Options

  /** The bits of the flags of ufs_open. */
  datatype Flags = Flags(create: bool, readOnly: bool, writeOnly: bool, readWrite: bool)

  datatype FileInfo = FileInfo(name: Option<string>, refs: nat, contents: seq<byte>)

  datatype Desc = Desc(file: nat, offset: nat, mode: Mode)

  /** `files` are the file structures by address, `fileList` the list from its head along `prev`. */
  datatype State = State(files: map<nat, FileInfo>, fileList: seq<nat>, slots: seq<Option<Desc>>)

  datatype Reply = Descriptor(fd: nat) | Success | Written(count: nat) | Failure(code: ErrorCode) | NotFound | AssertFails

  const EMPTY: State := State(map[], [], [])

  // ---- Searching ------------------------------------------------------------------------------

  predicate Named(files: map<nat, FileInfo>, f: nat, name: string)
  {
    f in files && files[f].name == Some(name)
  }

  /** The first file of the list that has the name. */
  function FindFile(files: map<nat, FileInfo>, fileList: seq<nat>, name: string): (r: Option<nat>)
    ensures r.Some? ==> r.value in fileList && Named(files, r.value, name)
    ensures r.None? ==> forall f | f in fileList :: !Named(files, f, name)
  {
    if fileList == [] then None
    else if Named(files, fileList[0], name) then Some(fileList[0])
    else FindFile(files, fileList[1..], name)
  }

  predicate IsOn(slot: Option<Desc>, f: nat)
  {
    slot.Some? && slot.value.file == f
  }

  /** The first descriptor that is open on the file. */
  function FindDesc(slots: seq<Option<Desc>>, f: nat): (r: Option<Desc>)
    ensures r.Some? ==> r in slots && r.value.file == f
    ensures r.None? ==> forall slot | slot in slots :: !IsOn(slot, f)
  {
    if slots == [] then None
    else if IsOn(slots[0], f) then slots[0]
    else FindDesc(slots[1..], f)
  }

  /** find_filedesc follows `fd->file` in every slot up to the descriptor that it finds, without a test for
      NULL: with the slots of closed descriptors set to NULL it would follow one of them. */
  predicate ScansNull(slots: seq<Option<Desc>>, f: nat) {
    slots != [] && (slots[0].None? || (!IsOn(slots[0], f) && ScansNull(slots[1..], f)))
  }

  /** That happens exactly when a slot is free and no descriptor on the file lies below the first free one. */
  lemma {:induction false} NullIsScanned(slots: seq<Option<Desc>>, f: nat)
    ensures ScansNull(slots, f) <==>
      FreeSlot(slots) < |slots| && forall i | 0 <= i < FreeSlot(slots) :: !IsOn(slots[i], f)
  {
    if slots != [] && slots[0].Some? {
      NullIsScanned(slots[1..], f);
      var free := FreeSlot(slots[1..]);
      assert forall i | 0 < i < free + 1 :: slots[i] == slots[1..][i - 1];
      if !IsOn(slots[0], f) && ScansNull(slots[1..], f) {
        assert forall i | 0 <= i < free :: !IsOn(slots[1..][i], f);
      }
      if forall i | 0 <= i < FreeSlot(slots) :: !IsOn(slots[i], f) {
        forall i | 0 <= i < free
          ensures !IsOn(slots[1..][i], f)
        {
          assert !IsOn(slots[i + 1], f);
        }
      }
    }
  }

  /** The first slot that is NULL, or the one behind the last. */
  function FreeSlot(slots: seq<Option<Desc>>): (i: nat)
    ensures i <= |slots| && (i < |slots| ==> slots[i].None?)
    ensures forall j | 0 <= j < i :: slots[j].Some?
  {
    if slots == [] || slots[0].None? then 0 else 1 + FreeSlot(slots[1..])
  }

  function Place(slots: seq<Option<Desc>>, i: nat, desc: Desc): (r: seq<Option<Desc>>)
    requires i <= |slots|
  {
    if i < |slots| then slots[i := Some(desc)] else slots + [Some(desc)]
  }

  /** The list with the file taken out. */
  function Without(list: seq<nat>, f: nat): (r: seq<nat>)
    ensures forall g :: g in r <==> g in list && g != f
  {
    if list == [] then [] else (if list[0] == f then [] else [list[0]]) + Without(list[1..], f)
  }

  // ---- The operations -------------------------------------------------------------------------

  /** The mode is left as malloc gave it, `junk`, when no flag names one. */
  function ModeOf(flags: Flags, junk: Mode): Mode
  {
    if flags.readWrite then ReadWrite
    else if flags.readOnly then ReadOnly
    else if flags.writeOnly then WriteOnly
    else junk
  }

  /** A descriptor on file f in the slot. */
  function Attach(s: State, f: nat, offset: nat, mode: Mode, slot: nat): (State, Reply)
    requires f in s.files && slot <= |s.slots|
  {
    var info := s.files[f];
    (s.(files := s.files[f := info.(refs := info.refs + 1)], slots := Place(s.slots, slot, Desc(f, offset, mode))),
     Descriptor(slot))
  }

  /** A new file structure at the head of the list. */
  function Create(s: State, name: string, address: nat): State
  {
    s.(files := s.files[address := FileInfo(Some(name), 0, [])], fileList := [address] + s.fileList)
  }

  /** `address` is where malloc puts a new file structure; the new descriptor goes into the slot. */
  function OpenAt(s: State, name: string, flags: Flags, address: nat, junk: Mode, slot: nat): (State, Reply)
    requires slot <= |s.slots|
  {
    var found := FindFile(s.files, s.fileList, name);
    if flags.create then
      if found.Some? then (s, Failure(NoPermission))
      else Attach(Create(s, name, address), address, 0, ModeOf(flags, junk), slot)
    else if found.None? then (s, Failure(NoFile))
    else
      var desc := FindDesc(s.slots, found.value);
      if desc.None? then (s, AssertFails)
      else Attach(s, found.value, desc.value.offset, ModeOf(flags, junk), slot)
  }

  /** The documented open takes the first free slot. */
  function Open(s: State, name: string, flags: Flags, address: nat, junk: Mode): (State, Reply) {
    OpenAt(s, name, flags, address, junk, FreeSlot(s.slots))
  }

  function Close(s: State, fd: nat): (State, Reply)
    requires fd < |s.slots|
  {
    if s.slots[fd].None? || s.slots[fd].value.file !in s.files then (s, Failure(NoFile))
    else
      var f := s.slots[fd].value.file;
      var info := s.files[f];
      var slots := s.slots[fd := None];
      if info.refs <= 1 then (State(s.files - {f}, Without(s.fileList, f), slots), Success)
      else (s.(files := s.files[f := info.(refs := info.refs - 1)], slots := slots), Success)
  }

  function Delete(s: State, name: string): (State, Reply)
  {
    var found := FindFile(s.files, s.fileList, name);
    if found.None? then (s, NotFound)
    else (s.(files := s.files[found.value := s.files[found.value].(name := None)]), Success)
  }

  /** The bytes a write keeps. */
  function Stored(data: seq<byte>): seq<byte>
    requires data != []
  {
    var size := if |data| > MAX_FILE_SIZE then MAX_FILE_SIZE else |data|;
    KeptIsSize(size);
    data[..Kept(size)]
  }

  /** The chain that a write makes, as FileData.UfsWrite leaves it, contains what is stored. */
  lemma ChainHoldsStored(bs: seq<Block>, memory: array<byte>, data: seq<byte>)
    requires data != []
    requires var size := if |data| > MAX_FILE_SIZE then MAX_FILE_SIZE else |data|;
      |bs| == BlockCount(size) && Packed(bs, memory, size % BLOCK_SIZE) && Holds(memory[..], data, Kept(size))
    ensures forall b | b in bs :: b.at + b.occupied <= b.memory.Length
    ensures Contents(bs) == Stored(data)
  {
    ChainHoldsPrefix(bs, memory, data, if |data| > MAX_FILE_SIZE then MAX_FILE_SIZE else |data|);
  }

  function Write(s: State, fd: nat, data: seq<byte>): (State, Reply)
    requires fd < |s.slots|
  {
    if s.slots[fd].None? || s.slots[fd].value.file !in s.files then (s, Failure(NoFile))
    else
      var desc := s.slots[fd].value;
      if desc.mode.ReadOnly? then (s, Failure(NoPermission))
      else if data == [] then (s, AssertFails)
      else
        var stored := Stored(data);
        (s.(files := s.files[desc.file := s.files[desc.file].(contents := stored)],
            slots := s.slots[fd := Some(desc.(offset := |stored|))]), Written(|stored|))
  }

  // ---- The invariant --------------------------------------------------------------------------

  /** The number of descriptors that are open on the file. */
  function CountOn(slots: seq<Option<Desc>>, f: nat): nat
  {
    if slots == [] then 0 else (if IsOn(slots[0], f) then 1 else 0) + CountOn(slots[1..], f)
  }

  ghost predicate NoDuplicates(list: seq<nat>)
  {
    forall i, j | 0 <= i < j < |list| :: list[i] != list[j]
  }

  ghost predicate ListsAllFiles(s: State)
  {
    NoDuplicates(s.fileList) && forall f :: f in s.fileList <==> f in s.files
  }

  ghost predicate NamesAreUnique(files: map<nat, FileInfo>)
  {
    forall f, g | f in files && g in files && files[f].name.Some? && files[f].name == files[g].name :: f == g
  }

  ghost predicate DescriptorsAreLive(s: State)
  {
    forall slot | slot in s.slots && slot.Some? :: slot.value.file in s.files
  }

  ghost predicate RefsAreCounts(s: State)
  {
    forall f | f in s.files :: s.files[f].refs == CountOn(s.slots, f) >= 1
  }

  ghost predicate Inv(s: State)
  {
    ListsAllFiles(s) && NamesAreUnique(s.files) && DescriptorsAreLive(s) && RefsAreCounts(s)
  }

  lemma {:induction false} CountOfUpdate(slots: seq<Option<Desc>>, i: nat, x: Option<Desc>, f: nat)
    requires i < |slots|
    ensures CountOn(slots[i := x], f) ==
      CountOn(slots, f) - (if IsOn(slots[i], f) then 1 else 0) + (if IsOn(x, f) then 1 else 0)
  {
    if i == 0 {
      assert slots[0 := x][1..] == slots[1..];
    } else {
      CountOfUpdate(slots[1..], i - 1, x, f);
      assert slots[i := x][1..] == slots[1..][i - 1 := x];
    }
  }

  lemma {:induction false} CountOfSnoc(slots: seq<Option<Desc>>, x: Option<Desc>, f: nat)
    ensures CountOn(slots + [x], f) == CountOn(slots, f) + if IsOn(x, f) then 1 else 0
  {
    if slots == [] {
      assert slots + [x] == [x];
    } else {
      CountOfSnoc(slots[1..], x, f);
      assert (slots + [x])[1..] == slots[1..] + [x];
    }
  }

  lemma CountOfPlace(slots: seq<Option<Desc>>, desc: Desc, f: nat)
    ensures CountOn(Place(slots, FreeSlot(slots), desc), f) == CountOn(slots, f) + if desc.file == f then 1 else 0
  {
    var i := FreeSlot(slots);
    if i < |slots| {
      CountOfUpdate(slots, i, Some(desc), f);
    } else {
      CountOfSnoc(slots, Some(desc), f);
    }
  }

  /** A file is open through some descriptor exactly when the count is positive. */
  lemma {:induction false} CountIsPositive(slots: seq<Option<Desc>>, f: nat)
    ensures CountOn(slots, f) >= 1 <==> exists i :: 0 <= i < |slots| && IsOn(slots[i], f)
  {
    if slots != [] {
      CountIsPositive(slots[1..], f);
      if i :| 0 <= i < |slots| && IsOn(slots[i], f) {
        if i > 0 {
          assert IsOn(slots[1..][i - 1], f);
        }
      }
      if i :| 0 <= i < |slots[1..]| && IsOn(slots[1..][i], f) {
        assert IsOn(slots[i + 1], f);
      }
    }
  }

  lemma {:induction false} WithoutHasNoDuplicates(list: seq<nat>, f: nat)
    requires NoDuplicates(list)
    ensures NoDuplicates(Without(list, f))
  {
    if list != [] {
      WithoutHasNoDuplicates(list[1..], f);
      assert forall j | 1 <= j < |list| :: list[0] != list[j];
      assert list[0] !in list[1..];
    }
  }

  /** The invariant with file f one reference short, or with no descriptor yet. */
  ghost predicate AlmostInv(s: State, f: nat)
  {
    && ListsAllFiles(s) && NamesAreUnique(s.files) && DescriptorsAreLive(s) && f in s.files
    && (forall g | g in s.files :: s.files[g].refs == CountOn(s.slots, g))
    && (forall g | g in s.files && g != f :: s.files[g].refs >= 1)
  }

  lemma AttachKeepsInv(s: State, f: nat, offset: nat, mode: Mode)
    requires AlmostInv(s, f)
    ensures Inv(Attach(s, f, offset, mode, FreeSlot(s.slots)).0)
  {
    var t := Attach(s, f, offset, mode, FreeSlot(s.slots)).0;
    forall g | g in t.files
      ensures t.files[g].refs == CountOn(t.slots, g) >= 1
    {
      CountOfPlace(s.slots, Desc(f, offset, mode), g);
    }
  }

  lemma CreateKeepsInv(s: State, name: string, address: nat)
    requires Inv(s) && address !in s.files && FindFile(s.files, s.fileList, name).None?
    ensures AlmostInv(Create(s, name, address), address)
  {
    CountIsPositive(s.slots, address);
    var t := Create(s, name, address);
    assert forall f :: f in t.fileList <==> f == address || f in s.fileList;
    forall f | f in s.files
      ensures s.files[f].name != Some(name)
    {
      assert f in s.fileList && !Named(s.files, f, name);
    }
  }

  lemma OpenKeepsInv(s: State, name: string, flags: Flags, address: nat, junk: Mode)
    requires Inv(s) && address !in s.files
    ensures Inv(Open(s, name, flags, address, junk).0)
  {
    var found := FindFile(s.files, s.fileList, name);
    if flags.create && found.None? {
      CreateKeepsInv(s, name, address);
      AttachKeepsInv(Create(s, name, address), address, 0, ModeOf(flags, junk));
    } else if !flags.create && found.Some? {
      var desc := FindDesc(s.slots, found.value);
      if desc.Some? {
        AttachKeepsInv(s, found.value, desc.value.offset, ModeOf(flags, junk));
      }
    }
  }

  lemma CloseKeepsInv(s: State, fd: nat)
    requires Inv(s) && fd < |s.slots|
    ensures Inv(Close(s, fd).0)
  {
    if s.slots[fd].Some? {
      var f := s.slots[fd].value.file;
      var t := Close(s, fd).0;
      forall g
        ensures CountOn(t.slots, g) == CountOn(s.slots, g) - if g == f then 1 else 0
      {
        CountOfUpdate(s.slots, fd, None, g);
      }
      WithoutHasNoDuplicates(s.fileList, f);
      forall i | 0 <= i < |t.slots| && t.slots[i].Some?
        ensures t.slots[i].value.file in t.files
      {
        assert t.slots[i] in s.slots && IsOn(t.slots[i], t.slots[i].value.file);
        CountIsPositive(t.slots, t.slots[i].value.file);
      }
    }
  }

  lemma DeleteKeepsInv(s: State, name: string)
    requires Inv(s)
    ensures Inv(Delete(s, name).0)
  {
  }

  lemma WriteKeepsInv(s: State, fd: nat, data: seq<byte>)
    requires Inv(s) && fd < |s.slots|
    ensures Inv(Write(s, fd, data).0)
  {
    var t := Write(s, fd, data).0;
    if t != s {
      forall g
        ensures CountOn(t.slots, g) == CountOn(s.slots, g)
      {
        CountOfUpdate(s.slots, fd, t.slots[fd], g);
      }
    }
  }

  // ---- Runs -----------------------------------------------------------------------------------

  datatype Call =
    | CallOpen(name: string, flags: Flags, address: nat, junk: Mode)
    | CallClose(fd: nat)
    | CallDelete(name: string)
    | CallWrite(fd: nat, data: seq<byte>)

  /** malloc returns no address in use, and a descriptor is an index of the array. */
  predicate Legal(s: State, call: Call)
  {
    match call
    case CallOpen(_, _, address, _) => address !in s.files
    case CallClose(fd) => fd < |s.slots|
    case CallDelete(_) => true
    case CallWrite(fd, _) => fd < |s.slots|
  }

  function Apply(s: State, call: Call): (State, Reply)
    requires Legal(s, call)
  {
    match call
    case CallOpen(name, flags, address, junk) => Open(s, name, flags, address, junk)
    case CallClose(fd) => Close(s, fd)
    case CallDelete(name) => Delete(s, name)
    case CallWrite(fd, data) => Write(s, fd, data)
  }

  ghost predicate IsRun(run: seq<State>, calls: seq<Call>)
  {
    && |run| == |calls| + 1
    && forall i | 0 <= i < |calls| :: Legal(run[i], calls[i]) && run[i + 1] == Apply(run[i], calls[i]).0
  }

  lemma CallKeepsInv(s: State, call: Call)
    requires Inv(s) && Legal(s, call)
    ensures Inv(Apply(s, call).0)
  {
    match call
    case CallOpen(name, flags, address, junk) => OpenKeepsInv(s, name, flags, address, junk);
    case CallClose(fd) => CloseKeepsInv(s, fd);
    case CallDelete(name) => DeleteKeepsInv(s, name);
    case CallWrite(fd, data) => WriteKeepsInv(s, fd, data);
  }

  lemma {:induction false} RunKeepsInv(run: seq<State>, calls: seq<Call>, i: nat)
    requires IsRun(run, calls) && Inv(run[0]) && i < |run|
    ensures Inv(run[i])
  {
    if i > 0 {
      RunKeepsInv(run, calls, i - 1);
      CallKeepsInv(run[i - 1], calls[i - 1]);
    }
  }

  /** In every run from the empty system the references of each live file are the descriptors open on it,
      at least one, names are unique, and the assert in ufs_open does not fail. */
  lemma RegistryInvariant(run: seq<State>, calls: seq<Call>, i: nat)
    requires IsRun(run, calls) && run[0] == EMPTY && i < |run|
    ensures Inv(run[i])
    ensures i < |calls| && calls[i].CallOpen? ==> Apply(run[i], calls[i]).1 != AssertFails
  {
    RunKeepsInv(run, calls, i);
    if i < |calls| && calls[i].CallOpen? {
      var s := run[i];
      var found := FindFile(s.files, s.fileList, calls[i].name);
      if found.Some? {
        CountIsPositive(s.slots, found.value);
      }
    }
  }

  // ---- What a descriptor sees -----------------------------------------------------------------

  /** The call closes descriptor fd or writes to its file. */
  predicate Touches(s: State, call: Call, fd: nat)
    requires fd < |s.slots| && s.slots[fd].Some?
  {
    || call == CallClose(fd)
    || (call.CallWrite? && call.fd < |s.slots| && IsOn(s.slots[call.fd], s.slots[fd].value.file))
  }

  /** The descriptor and the contents of its file are the same in both states. */
  predicate SeesTheSame(s: State, t: State, fd: nat)
  {
    && fd < |s.slots| && fd < |t.slots| && s.slots[fd].Some? && t.slots[fd] == s.slots[fd]
    && s.slots[fd].value.file in s.files && s.slots[fd].value.file in t.files
    && t.files[s.slots[fd].value.file].contents == s.files[s.slots[fd].value.file].contents
  }

  lemma OpenKeepsSight(s: State, call: Call, fd: nat)
    requires Inv(s) && Legal(s, call) && fd < |s.slots| && s.slots[fd].Some? && call.CallOpen?
    ensures SeesTheSame(s, Apply(s, call).0, fd)
  {
    assert s.slots[fd] in s.slots;
    var t := Apply(s, call).0;
    assert t.slots[fd] == s.slots[fd];
  }

  lemma CloseKeepsSight(s: State, closed: nat, fd: nat)
    requires Inv(s) && closed < |s.slots| && fd < |s.slots| && s.slots[fd].Some? && closed != fd
    ensures SeesTheSame(s, Close(s, closed).0, fd)
  {
    assert s.slots[fd] in s.slots;
    var t := Close(s, closed).0;
    assert t.slots[fd] == s.slots[fd];
    CloseKeepsInv(s, closed);
    assert t.slots[fd] in t.slots;
  }

  lemma CallKeepsSight(s: State, call: Call, fd: nat)
    requires Inv(s) && Legal(s, call) && fd < |s.slots| && s.slots[fd].Some? && !Touches(s, call, fd)
    ensures SeesTheSame(s, Apply(s, call).0, fd)
  {
    assert s.slots[fd] in s.slots;
    if call.CallOpen? {
      OpenKeepsSight(s, call, fd);
    } else if call.CallClose? {
      CloseKeepsSight(s, call.fd, fd);
    }
  }

  /** Whatever is opened, closed, deleted or created meanwhile, a descriptor that is not closed sees the
      contents of its file unchanged until something is written through a descriptor of that file. */
  lemma {:induction false} OldDescriptorsKeepSight(run: seq<State>, calls: seq<Call>, fd: nat, i: nat)
    requires IsRun(run, calls) && Inv(run[0]) && i < |run|
    requires fd < |run[0].slots| && run[0].slots[fd].Some?
    requires forall j | 0 <= j < i :: fd < |run[j].slots| && run[j].slots[fd].Some? ==> !Touches(run[j], calls[j], fd)
    ensures SeesTheSame(run[0], run[i], fd)
  {
    if i == 0 {
      assert run[0].slots[fd] in run[0].slots;
    } else {
      OldDescriptorsKeepSight(run, calls, fd, i - 1);
      RunKeepsInv(run, calls, i - 1);
      CallKeepsSight(run[i - 1], calls[i - 1], fd);
    }
  }

  /** A deleted name can be created again at once: the new file is not the file of any descriptor that was
      open, it is empty, and all that were open see what they saw. */
  lemma DeleteThenCreate(s: State, name: string, flags: Flags, address: nat, junk: Mode, fd: nat)
    requires Inv(s) && flags.create && address !in s.files
    requires fd < |s.slots| && s.slots[fd].Some?
    ensures var t := Delete(s, name).0;
      var (u, reply) := Open(t, name, flags, address, junk);
      && reply.Descriptor? && reply.fd < |u.slots| && reply.fd != fd
      && u.slots[reply.fd] == Some(Desc(address, 0, ModeOf(flags, junk)))
      && address in u.files && u.files[address] == FileInfo(Some(name), 1, [])
      && s.slots[fd].value.file != address && SeesTheSame(s, u, fd)
  {
    var t := Delete(s, name).0;
    DeleteKeepsInv(s, name);
    assert s.slots[fd] in s.slots;
    var u := Open(t, name, flags, address, junk).0;
    OpenKeepsInv(t, name, flags, address, junk);
    assert FindFile(t.files, t.fileList, name).None?;
  }

  // ---- The implementation ---------------------------------------------------------------------

  class Ufs {
    var files: map<nat, FileInfo>
    var fileList: seq<nat>
    var slots: seq<Option<Desc>>

    constructor ()
      ensures View() == EMPTY
    {
      files, fileList, slots := map[], [], [];
    }

    function View(): State
      reads this
    {
      State(files, fileList, slots)
    }

    method FindFileStruct(name: string) returns (r: Option<nat>)
      ensures r == FindFile(files, fileList, name)
    {
      var i := 0;
      while i < |fileList|
        invariant i <= |fileList|
        invariant FindFile(files, fileList, name) == FindFile(files, fileList[i..], name)
      {
        var file := fileList[i];
        if file in files && files[file].name.Some? && files[file].name.value == name {
          return Some(file);
        }
        i := i + 1;
      }
      r := None;
    }

    method FindFiledesc(f: nat) returns (r: Option<Desc>)
      ensures r == FindDesc(slots, f)
    {
      var i := 0;
      while i < |slots|
        invariant i <= |slots|
        invariant FindDesc(slots, f) == FindDesc(slots[i..], f)
      {
        var fd := slots[i];
        if fd.Some? && fd.value.file == f {
          return fd;
        }
        i := i + 1;
      }
      r := None;
    }

    method FindSlot() returns (fdno: nat)
      ensures fdno == FreeSlot(slots)
    {
      fdno := 0;
      while fdno < |slots| && slots[fdno].Some?
        invariant fdno <= |slots|
        invariant FreeSlot(slots) == fdno + FreeSlot(slots[fdno..])
      {
        fdno := fdno + 1;
      }
    }

    method AllocFileStruct(name: string, address: nat)
      modifies this
      ensures View() == Create(old(View()), name, address)
    {
      files := files[address := FileInfo(Some(name), 0, [])];
      fileList := [address] + fileList;
    }

    method UfsOpen(name: string, flags: Flags, address: nat, junk: Mode) returns (reply: Reply)
      requires address !in files
      modifies this
      ensures (View(), reply) == Open(old(View()), name, flags, address, junk)
    {
      var file := FindFileStruct(name);
      var offset := 0;
      if flags.create {
        if file.Some? {
          return Failure(NoPermission);
        }
        AllocFileStruct(name, address);
        file := Some(address);
      } else {
        if file.None? {
          return Failure(NoFile);
        }
        var ffd := FindFiledesc(file.value);
        if ffd.None? {
          return AssertFails;
        }
        offset := ffd.value.offset;
      }
      reply := NewDescriptor(file.value, offset, flags, junk);
    }

    method NewDescriptor(f: nat, offset: nat, flags: Flags, junk: Mode) returns (reply: Reply)
      requires f in files
      modifies this
      ensures (View(), reply) == Attach(old(View()), f, offset, ModeOf(flags, junk), FreeSlot(old(slots)))
    {
      files := files[f := files[f].(refs := files[f].refs + 1)];
      var mode := junk;
      if flags.readWrite {
        mode := ReadWrite;
      } else if flags.readOnly {
        mode := ReadOnly;
      } else if flags.writeOnly {
        mode := WriteOnly;
      }
      var fdno := FindSlot();
      var desc := Some(Desc(f, offset, mode));
      slots := if fdno < |slots| then slots[fdno := desc] else slots + [desc];
      reply := Descriptor(fdno);
    }

    method UfsClose(fdno: nat) returns (reply: Reply)
      requires fdno < |slots| && (slots[fdno].Some? ==> slots[fdno].value.file in files && files[slots[fdno].value.file].refs > 0)
      modifies this
      ensures (View(), reply) == Close(old(View()), fdno)
    {
      var fd := slots[fdno];
      if fd.None? {
        return Failure(NoFile);
      }
      var f := fd.value.file;
      files := files[f := files[f].(refs := files[f].refs - 1)];
      if files[f].refs == 0 {
        files := files - {f};
        assert files == old(files) - {f};
        fileList := Without(fileList, f);
      }
      slots := slots[fdno := None];
      reply := Success;
    }

    method UfsWrite(fdno: nat, data: seq<byte>) returns (reply: Reply)
      requires fdno < |slots| && (slots[fdno].Some? ==> slots[fdno].value.file in files)
      modifies this
      ensures (View(), reply) == Write(old(View()), fdno, data)
    {
      var fd := slots[fdno];
      if fd.None? {
        return Failure(NoFile);
      }
      if !(fd.value.mode.WriteOnly? || fd.value.mode.ReadWrite?) {
        return Failure(NoPermission);
      }
      if data == [] {
        return AssertFails;
      }
      var stored := Stored(data);
      files := files[fd.value.file := files[fd.value.file].(contents := stored)];
      slots := slots[fdno := Some(fd.value.(offset := |stored|))];
      reply := Written(|stored|);
    }

    method UfsDelete(name: string) returns (reply: Reply)
      modifies this
      ensures (View(), reply) == Delete(old(View()), name)
    {
      var file := FindFileStruct(name);
      if file.None? {
        return NotFound;
      }
      files := files[file.value := files[file.value].(name := None)];
      reply := Success;
    }
  }
}
