/** dup2 built from dup and close: the probe, the loop that dups until newfd comes up, and the stack
    of descriptors that it has to close again. */
module MyDup2 {
  import opened Descriptors

  const INITIAL_CAPACITY: nat := 64

  /** A growable stack of descriptors, with the push and pop that the algorithm needs: push doubles a
      full buffer and keeps its contents, pop takes the topmost element. */
  class Stack {
    var data: array<int>
    var size: nat

    ghost predicate Valid()
      reads this
    {
      0 < data.Length && size <= data.Length
    }

    ghost function Contents(): seq<int>
      requires Valid()
      reads this, data
    {
      data[..size]
    }

    /** malloc leaves `junk` in the array. */
    constructor (junk: int)
      ensures Valid() && fresh(data) && Contents() == [] && data.Length == INITIAL_CAPACITY && Above(junk)
    {
      data := new int[INITIAL_CAPACITY](_ => junk);
      size := 0;
    }

    /** Nothing has been stored above the top: what lies there is what malloc left. */
    ghost predicate Above(junk: int)
      requires Valid()
      reads this, data
    {
      forall i | size <= i < data.Length :: data[i] == junk
    }

    method Push(item: int, junk: int)
      requires Valid() && Above(junk)
      modifies this, data
      ensures Valid() && (data == old(data) || fresh(data)) && Above(junk)
      ensures Contents() == old(Contents()) + [item]
      ensures data.Length == if old(size) == old(data.Length) then 2 * old(data.Length) else old(data.Length)
    {
      if size == data.Length {
        var bigger := new int[2 * data.Length](_ => junk);
        for i := 0 to size
          modifies bigger
          invariant bigger[..i] == data[..i]
          invariant forall k | i <= k < bigger.Length :: bigger[k] == junk
        {
          bigger[i] := data[i];
        }
        data := bigger;
      }
      data[size] := item;
      size := size + 1;
    }

    method Pop() returns (item: int)
      requires Valid() && Contents() != []
      modifies this`size
      ensures Valid() && data == old(data)
      ensures old(Contents()) == Contents() + [item]
    {
      size := size - 1;
      item := data[size];
    }

    /** The pop of the source reads before it moves down; behind the array lies `junk` too. */
    method WrittenPop(junk: int) returns (item: int)
      requires Valid() && Contents() != []
      modifies this`size
      ensures Valid() && data == old(data)
      ensures size == old(size) - 1 && item == if old(size) < data.Length then data[old(size)] else junk
    {
      item := if size < data.Length then data[size] else junk;
      size := size - 1;
    }
  }

  // ---- What dup2_impl computes ----------------------------------------------------------------

  /** Some number below the limit is not open. */
  predicate HasFree<D>(t: Table<D>, limit: nat) { FirstFree(t, 0, limit) < limit }

  /** The dup loop never meets newfd: dup works, but newfd is no number that it can return. */
  predicate Diverges<D>(t: Table<D>, oldfd: int, newfd: int, limit: nat) {
    oldfd >= 0 && oldfd != newfd && oldfd in t && HasFree(t, limit) && newfd >= limit
  }

  /** The result of dup2_impl where it returns. */
  function Outcome<D>(t: Table<D>, oldfd: int, newfd: int, limit: nat): Call<D> {
    if newfd < 0 || oldfd < 0 then Call(-1, t)
    else if oldfd == newfd then Call(newfd, t)
    else if oldfd !in t || !HasFree(t, limit) then Call(-1, t)
    else Call(newfd, t[newfd := t[oldfd]])
  }

  /** The table has newfd on the description of oldfd and is otherwise the same, oldfd included. */
  ghost predicate Duplicated<D>(t: Table<D>, t': Table<D>, oldfd: int, newfd: int) {
    && oldfd in t && newfd in t' && t'[newfd] == t[oldfd]
    && forall fd | fd != newfd :: (fd in t' <==> fd in t) && (fd in t ==> t'[fd] == t[fd])
  }

  /** What a return of dup2_impl, and of dup2, means for the table. */
  lemma OutcomeMeans<D>(t: Table<D>, oldfd: int, newfd: int, limit: nat)
    ensures var c := Outcome(t, oldfd, newfd, limit);
      if c.result < 0 then c == Call(-1, t)
      else c.result == newfd && if oldfd == newfd then c.table == t else Duplicated(t, c.table, oldfd, newfd)
    ensures var c := Dup2(t, oldfd, newfd, limit);
      if c.result < 0 then c == Call(-1, t) else c.result == newfd && Duplicated(t, c.table, oldfd, newfd)
  {
  }

  /** The table after n dups of oldfd, with the number that the last one returned. */
  function DupTimes<D>(t: Table<D>, oldfd: int, n: nat, limit: nat): Call<D> {
    if n == 0 then Call(-1, t) else Dup(DupTimes(t, oldfd, n - 1, limit).table, oldfd, limit)
  }

  /** No number of dups brings up newfd: in this case the loop of dup2_impl runs forever. */
  lemma DivergesForever<D>(t: Table<D>, oldfd: int, newfd: int, limit: nat, n: nat)
    requires Diverges(t, oldfd, newfd, limit) && n > 0
    ensures DupTimes(Close(t, newfd).table, oldfd, n, limit).result != newfd
  {
  }

  /** dup2_impl does what dup2 does exactly when: a negative argument is given; or the two numbers
      are equal and open; or they differ and either oldfd is not open, or the table has a free slot for
      the probe just when newfd is below the limit. */
  lemma AgreesWithDup2<D>(t: Table<D>, oldfd: int, newfd: int, limit: nat)
    requires InRange(t, limit)
    ensures (!Diverges(t, oldfd, newfd, limit) && Outcome(t, oldfd, newfd, limit) == Dup2(t, oldfd, newfd, limit))
        <==> (|| oldfd < 0 || newfd < 0
              || (if oldfd == newfd then oldfd in t else oldfd !in t || (HasFree(t, limit) <==> newfd < limit)))
  {
  }

  // ---- The intermediate descriptors -----------------------------------------------------------

  /** The numbers below n that are not open, in increasing order. */
  function Gaps<D>(t: Table<D>, n: int): seq<int> {
    if n <= 0 then [] else Gaps(t, n - 1) + if n - 1 in t then [] else [n - 1]
  }

  lemma {:induction false} GapsAscend<D>(t: Table<D>, n: int)
    ensures Ascending(t, Gaps(t, n), n)
  {
    if n > 0 {
      GapsAscend(t, n - 1);
    }
  }

  /** There are none exactly when all numbers below n are open. */
  lemma {:induction false} NoGaps<D>(t: Table<D>, n: int)
    ensures Gaps(t, n) == [] <==> forall k | 0 <= k < n :: k in t
  {
    if n > 0 {
      NoGaps(t, n - 1);
    }
  }

  /** They are as many as there are closed numbers below n. */
  lemma {:induction false} GapsAreClosed<D>(t: Table<D>, n: int)
    ensures |Gaps(t, n)| == |ClosedBelow(t, n)|
  {
    if n <= 0 {
      assert ClosedBelow(t, n) == {};
    } else {
      GapsAreClosed(t, n - 1);
      assert ClosedBelow(t, n) == ClosedBelow(t, n - 1) + if n - 1 in t then {} else {n - 1};
    }
  }

  function ClosedBelow<D>(t: Table<D>, n: int): set<int> { set k: int | 0 <= k < n && k !in t }

  /** Between a gap and the next there is no other. */
  lemma {:induction false} GapsUpTo<D>(t: Table<D>, low: int, high: int)
    requires low <= high && forall k | low <= k < high && 0 <= k :: k in t
    ensures Gaps(t, high) == Gaps(t, low)
    decreases high - low
  {
    if low < high {
      GapsUpTo(t, low, high - 1);
    }
  }

  lemma {:induction false} NextGap<D>(t: Table<D>, gap: int, next: int)
    requires 0 <= gap < next && gap !in t && forall k | gap < k < next :: k in t
    ensures Gaps(t, next) == Gaps(t, gap) + [gap]
  {
    GapsUpTo(t, gap + 1, next);
  }

  /** `t` with every number in `fds` referring to `d`. */
  function AddAll<D>(t: Table<D>, fds: seq<int>, d: D): Table<D> {
    if fds == [] then t else AddAll(t, fds[..|fds| - 1], d)[fds[|fds| - 1] := d]
  }

  lemma {:induction false} KeysOfAddAll<D>(t: Table<D>, fds: seq<int>, d: D)
    ensures forall k :: k in AddAll(t, fds, d) <==> k in t || k in fds
  {
    if fds != [] {
      KeysOfAddAll(t, fds[..|fds| - 1], d);
      assert fds == fds[..|fds| - 1] + [fds[|fds| - 1]];
    }
  }

  /** The state of the closing loop: newfd is in place, the pushed descriptors are still open. */
  ghost predicate Closing<D>(t: Table<D>, base: Table<D>, pushed: seq<int>, it: D, newfd: int) {
    newfd !in base && Ascending(base, pushed, newfd) && t == AddAll(base, pushed, it)[newfd := it]
  }

  /** Pushed descriptors are fresh, below `bound`, and in strictly increasing order. */
  ghost predicate Ascending<D>(t: Table<D>, fds: seq<int>, bound: int) {
    && (forall i | 0 <= i < |fds| :: fds[i] !in t && 0 <= fds[i] < bound)
    && (forall i, j | 0 <= i < j < |fds| :: fds[i] < fds[j])
  }

  lemma {:induction false} CloseTurn<D>(t: Table<D>, base: Table<D>, pushed: seq<int>, top: int, it: D, newfd: int)
    requires Closing(t, base, pushed + [top], it, newfd)
    ensures Closing(Close(t, top).table, base, pushed, it, newfd)
  {
    var all := pushed + [top];
    assert all[..|all| - 1] == pushed;
    KeysOfAddAll(base, pushed, it);
    assert forall i | 0 <= i < |pushed| :: pushed[i] == all[i];
    assert top == all[|pushed|];
  }

  /** The state of the dup loop: the last dup returned `fd`, the ones before it are pushed. */
  ghost predicate Probing<D>(t: Table<D>, base: Table<D>, pushed: seq<int>, fd: int, it: D, newfd: int) {
    && 0 <= fd <= newfd && newfd !in base && fd !in base
    && (forall k | 0 <= k <= fd :: k in t)
    && Ascending(base, pushed, fd)
    && t == AddAll(base, pushed, it)[fd := it]
  }

  lemma ProbeStart<D>(base: Table<D>, oldfd: int, newfd: int, limit: nat)
    requires oldfd in base && 0 <= newfd < limit && newfd !in base
    ensures var c := Dup(base, oldfd, limit);
      Probing(c.table, base, [], c.result, base[oldfd], newfd) && Gaps(base, c.result) == []
  {
    GapsUpTo(base, 0, Dup(base, oldfd, limit).result);
  }

  /** Each further dup returns a larger number, which is at most newfd. */
  lemma {:induction false} ProbeTurn<D>(t: Table<D>, base: Table<D>, pushed: seq<int>, fd: int, oldfd: int, newfd: int, limit: nat)
    requires oldfd in base && newfd < limit
    requires Probing(t, base, pushed, fd, base[oldfd], newfd) && fd != newfd
    ensures var c := Dup(t, oldfd, limit);
      fd < c.result && Probing(c.table, base, pushed + [fd], c.result, base[oldfd], newfd)
  {
    var it, next := base[oldfd], Dup(t, oldfd, limit).result;
    KeysOfAddAll(base, pushed, it);
    KeepsBase(base, pushed, it, oldfd);
    assert newfd !in t;
    assert fd < next <= newfd && next !in t;
    assert (pushed + [fd])[..|pushed|] == pushed;
    assert AddAll(base, pushed + [fd], it) == t;
  }

  lemma {:induction false} GapTurn<D>(t: Table<D>, base: Table<D>, pushed: seq<int>, fd: int, it: D, newfd: int, next: int)
    requires Probing(t, base, pushed, fd, it, newfd) && pushed == Gaps(base, fd)
    requires fd < next && forall k | fd < k < next :: k in t
    ensures Gaps(base, next) == pushed + [fd]
  {
    KeysOfAddAll(base, pushed, it);
    forall k | fd < k < next
      ensures k in base
    {
      assert k in t && k !in pushed;
    }
    NextGap(base, fd, next);
  }

  lemma {:induction false} KeepsBase<D>(t: Table<D>, fds: seq<int>, d: D, fd: int)
    requires fd in t && t[fd] == d
    ensures fd in AddAll(t, fds, d) && AddAll(t, fds, d)[fd] == d
  {
    if fds != [] {
      KeepsBase(t, fds[..|fds| - 1], d, fd);
    }
  }

  /** The dup loop. It pushes exactly the closed numbers below newfd, and no push finds the stack full
      exactly when these are at most 64. */
  method Probe<D>(d: DescriptorTable<D>, oldfd: int, newfd: int, junk: int) returns (s: Stack)
    requires d.Valid() && oldfd in d.open && 0 <= newfd < d.limit && newfd !in d.open
    modifies d
    ensures d.Valid() && fresh(s) && s.Valid() && fresh(s.data) && s.Above(junk)
    ensures Closing(d.open, old(d.open), s.Contents(), old(d.open)[oldfd], newfd)
    ensures s.Contents() == Gaps(old(d.open), newfd)
    ensures s.data.Length == 64 <==> |Gaps(old(d.open), newfd)| <= 64
  {
    ghost var base, it := d.open, d.open[oldfd];
    s := new Stack(junk);
    ProbeStart(base, oldfd, newfd, d.limit);
    var fd := d.DupCall(oldfd);
    while fd != newfd
      invariant d.Valid() && s.Valid() && fresh(s) && fresh(s.data) && s.Above(junk)
      invariant Probing(d.open, base, s.Contents(), fd, it, newfd) && s.Contents() == Gaps(base, fd)
      invariant s.data.Length >= INITIAL_CAPACITY
      invariant s.data.Length == INITIAL_CAPACITY <==> s.size <= INITIAL_CAPACITY
      decreases newfd - fd
    {
      ProbeTurn(d.open, base, s.Contents(), fd, oldfd, newfd, d.limit);
      GapTurn(d.open, base, s.Contents(), fd, it, newfd, Dup(d.open, oldfd, d.limit).result);
      s.Push(fd, junk);
      fd := d.DupCall(oldfd);
    }
  }

  /** The loop that pops and closes. */
  method CloseIntermediates<D>(d: DescriptorTable<D>, s: Stack, ghost base: Table<D>, ghost it: D, ghost newfd: int)
    requires d.Valid() && s.Valid() && Closing(d.open, base, s.Contents(), it, newfd)
    modifies d, s
    ensures d.Valid() && d.open == base[newfd := it]
  {
    while s.size > 0
      invariant d.Valid() && s.Valid() && s.data == old(s.data)
      invariant Closing(d.open, base, s.Contents(), it, newfd)
      decreases s.size
    {
      ghost var t := d.open;
      var fd := s.Pop();
      CloseTurn(t, base, s.Contents(), fd, it, newfd);
      var _ := d.CloseCall(fd);
    }
  }

  method Dup2Impl<D>(d: DescriptorTable<D>, oldfd: int, newfd: int) returns (r: int)
    requires d.Valid() && !Diverges(d.open, oldfd, newfd, d.limit)
    modifies d
    ensures d.Valid() && Call(r, d.open) == Outcome(old(d.open), oldfd, newfd, d.limit)
  {
    if newfd < 0 || oldfd < 0 {
      return -1;
    }
    if oldfd == newfd {
      return newfd;
    }
    var fd := d.DupCall(oldfd);
    if fd < 0 {
      return -1;
    }
    var _ := d.CloseCall(fd);
    assert d.open == old(d.open);
    var _ := d.CloseCall(newfd);
    ghost var base, it := d.open, d.open[oldfd];
    assert base == old(d.open) - {newfd};
    var s := Probe(d, oldfd, newfd, 0);
    CloseIntermediates(d, s, base, it, newfd);
    r := newfd;
  }

  // ---- The pop of the source ------------------------------------------------------------------

  /** The values that the source's pop, which reads the slot above the top before it moves down,
      returns while it empties a stack of n elements; `above` is what lies in that slot. */
  function WrittenPops(contents: seq<int>, above: int): seq<int>
    decreases |contents|
  {
    if contents == [] then []
    else [above] + WrittenPops(contents[..|contents| - 1], contents[|contents| - 1])
  }

  function CloseAll<D>(t: Table<D>, fds: seq<int>): Table<D> {
    if fds == [] then t else CloseAll(Close(t, fds[0]).table, fds[1..])
  }

  lemma {:induction false} WrittenPopsSkipBottom(contents: seq<int>, above: int)
    requires contents != []
    ensures forall x | x in WrittenPops(contents, above) :: x == above || x in contents[1..]
    decreases |contents|
  {
    if |contents| > 1 {
      var init, last := contents[..|contents| - 1], contents[|contents| - 1];
      WrittenPopsSkipBottom(init, last);
      assert contents[1..] == init[1..] + [last];
    } else {
      assert contents[..0] == [];
    }
  }

  lemma {:induction false} CloseAllKeeps<D>(t: Table<D>, fds: seq<int>, fd: int)
    requires fd in t && fd !in fds
    ensures fd in CloseAll(t, fds)
  {
    if fds != [] {
      CloseAllKeeps(Close(t, fds[0]).table, fds[1..], fd);
    }
  }

  /** The result of dup2_impl with the pop of the source, where `junk` lies above the stack. */
  function WrittenOutcome<D>(t: Table<D>, oldfd: int, newfd: int, limit: nat, junk: int): Call<D> {
    if newfd < 0 || oldfd < 0 then Call(-1, t)
    else if oldfd == newfd then Call(newfd, t)
    else if oldfd !in t || !HasFree(t, limit) then Call(-1, t)
    else
      var gaps := Gaps(t, newfd);
      Call(newfd, CloseAll(AddAll(t - {newfd}, gaps, t[oldfd])[newfd := t[oldfd]], WrittenPops(gaps, junk)))
  }

  /** The closing loop with the pop of the source. */
  method WrittenClose<D>(d: DescriptorTable<D>, s: Stack, junk: int)
    requires d.Valid() && s.Valid() && s.Above(junk)
    modifies d, s
    ensures d.Valid()
    ensures d.open == CloseAll(old(d.open), WrittenPops(old(s.Contents()), junk))
  {
    ghost var all := WrittenPops(s.Contents(), junk);
    var above := junk;
    while s.size > 0
      invariant d.Valid() && s.Valid() && s.data == old(s.data)
      invariant above == if s.size < s.data.Length then s.data[s.size] else junk
      invariant CloseAll(old(d.open), all) == CloseAll(d.open, WrittenPops(s.Contents(), above))
      decreases s.size
    {
      ghost var contents := s.Contents();
      var fd := s.WrittenPop(junk);
      assert fd == above && s.Contents() == contents[..|contents| - 1];
      above := s.data[s.size];
      assert WrittenPops(contents, fd) == [fd] + WrittenPops(s.Contents(), above);
      var _ := d.CloseCall(fd);
    }
  }

  /** dup2_impl with the pop of the source. */
  method WrittenDup2Impl<D>(d: DescriptorTable<D>, oldfd: int, newfd: int, junk: int) returns (r: int)
    requires d.Valid() && !Diverges(d.open, oldfd, newfd, d.limit)
    modifies d
    ensures d.Valid() && Call(r, d.open) == WrittenOutcome(old(d.open), oldfd, newfd, d.limit, junk)
  {
    if newfd < 0 || oldfd < 0 {
      return -1;
    }
    if oldfd == newfd {
      return newfd;
    }
    var fd := d.DupCall(oldfd);
    if fd < 0 {
      return -1;
    }
    var _ := d.CloseCall(fd);
    assert d.open == old(d.open);
    var _ := d.CloseCall(newfd);
    assert d.open == old(d.open) - {newfd};
    GapsBelow(old(d.open), newfd, newfd);
    var s := Probe(d, oldfd, newfd, junk);
    WrittenClose(d, s, junk);
    r := newfd;
  }

  /** Closing newfd opens no gap below it. */
  lemma {:induction false} GapsBelow<D>(t: Table<D>, newfd: int, n: int)
    requires n <= newfd
    ensures Gaps(t - {newfd}, n) == Gaps(t, n)
  {
    if n > 0 {
      GapsBelow(t, newfd, n - 1);
    }
  }

  /** With the pop of the source dup2_impl leaves the result and the table that it should, whatever lies above
      the stack, exactly when it returns before the loop or every number below newfd is open:
      otherwise the lowest closed number can stay open. */
  lemma {:induction false} WrittenPopLeaks<D>(t: Table<D>, oldfd: int, newfd: int, limit: nat)
    ensures (forall junk: int :: WrittenOutcome(t, oldfd, newfd, limit, junk) == Outcome(t, oldfd, newfd, limit))
        <==> (|| newfd < 0 || oldfd < 0 || oldfd == newfd || oldfd !in t || !HasFree(t, limit)
              || (forall k | 0 <= k < newfd :: k in t))
  {
    NoGaps(t, newfd);
    if newfd >= 0 && oldfd >= 0 && oldfd != newfd && oldfd in t && HasFree(t, limit) {
      var base, pushed, it := t - {newfd}, Gaps(t, newfd), t[oldfd];
      if pushed != [] {
        GapsAscend(t, newfd);
        LowestLeaks(base, pushed, it, newfd);
        assert WrittenOutcome(t, oldfd, newfd, limit, -1) != Outcome(t, oldfd, newfd, limit);
      } else {
        assert base[newfd := it] == t[newfd := it];
      }
    }
  }

  lemma {:induction false} LowestLeaks<D>(base: Table<D>, pushed: seq<int>, it: D, newfd: int)
    requires Ascending(base, pushed, newfd) && newfd !in base && pushed != []
    ensures pushed[0] in CloseAll(AddAll(base, pushed, it)[newfd := it], WrittenPops(pushed, -1))
    ensures pushed[0] !in base[newfd := it]
  {
    KeysOfAddAll(base, pushed, it);
    WrittenPopsSkipBottom(pushed, -1);
    assert pushed[0] !in pushed[1..];
    CloseAllKeeps(AddAll(base, pushed, it)[newfd := it], WrittenPops(pushed, -1), pushed[0]);
  }
}
