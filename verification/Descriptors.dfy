/** A process's descriptor table: which description each open descriptor number refers to, with
    the lowest-free-number rule of POSIX.1-2017 (System Interfaces, section 2.14). */
module Descriptors {

  type Table<D> = map<int, D>

  ghost predicate InRange<D>(t: Table<D>, limit: nat) { forall fd | fd in t :: 0 <= fd < limit }

  /** The lowest number in `from..limit` that is not open, or `limit` if there is none. */
  function FirstFree<D>(t: Table<D>, from: nat, limit: nat): (fd: nat)
    requires from <= limit
    ensures from <= fd <= limit
    ensures forall k | from <= k < fd :: k in t
    ensures fd < limit ==> fd !in t
    decreases limit - from
  {
    if from == limit || from !in t then from else FirstFree(t, from + 1, limit)
  }

  lemma {:induction false} FirstFreeIs<D>(t: Table<D>, from: nat, limit: nat, fd: nat)
    requires from <= fd < limit && fd !in t && forall k | from <= k < fd :: k in t
    ensures FirstFree(t, from, limit) == fd
  {
  }

  /** What a call returns, and the table that it leaves. */
  datatype Call<D> = Call(result: int, table: Table<D>)

  function Dup<D>(t: Table<D>, fd: int, limit: nat): Call<D> {
    var free := FirstFree(t, 0, limit);
    if fd in t && free < limit then Call(free, t[free := t[fd]]) else Call(-1, t)
  }

  function Close<D>(t: Table<D>, fd: int): Call<D> {
    if fd in t then Call(0, t - {fd}) else Call(-1, t)
  }

  /** The dup2 of POSIX.1-2017. */
  function Dup2<D>(t: Table<D>, oldfd: int, newfd: int, limit: nat): Call<D> {
    if oldfd !in t || !(0 <= newfd < limit) then Call(-1, t)
    else if oldfd == newfd then Call(newfd, t)
    else Call(newfd, t[newfd := t[oldfd]])
  }

  /** Installs a new description in the lowest free number. */
  function Install<D>(t: Table<D>, description: D, limit: nat): Call<D> {
    var fd := FirstFree(t, 0, limit);
    if fd < limit then Call(fd, t[fd := description]) else Call(-1, t)
  }

  /** A table in memory, changed by the calls above. */
  class DescriptorTable<D> {
    const limit: nat
    var open: Table<D>

    ghost predicate Valid()
      reads this
    {
      InRange(open, limit)
    }

    constructor (open: Table<D>, limit: nat)
      requires InRange(open, limit)
      ensures this.open == open && this.limit == limit && Valid()
    {
      this.open, this.limit := open, limit;
    }

    method DupCall(fd: int) returns (r: int)
      requires Valid()
      modifies this
      ensures Valid() && Call(r, open) == Dup(old(open), fd, limit)
    {
      var free := FirstFree(open, 0, limit);
      if fd in open && free < limit {
        open := open[free := open[fd]];
        r := free;
      } else {
        r := -1;
      }
    }

    method CloseCall(fd: int) returns (r: int)
      requires Valid()
      modifies this
      ensures Valid() && Call(r, open) == Close(old(open), fd)
    {
      if fd in open {
        open := open - {fd};
        r := 0;
      } else {
        r := -1;
      }
    }
  }
}
