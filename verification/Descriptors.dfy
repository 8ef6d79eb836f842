/** Descriptor tables as POSIX.1-2017 (System Interfaces) describes them: a table maps the small
    integers a process uses to open files; `fork` copies the table; two tables may share a file. */
module Descriptors {

  const STDIN: nat := 0
  const STDOUT: nat := 1

  /** `Inherited` files were open before the call being modelled; the ends of the pipes that the
      call creates are numbered in creation order. */
  datatype File = Inherited(name: nat) | ReadEnd(pipe: nat) | WriteEnd(pipe: nat)

  type Table = map<nat, File>

  function Dup2(t: Table, from: nat, to: nat): Table
    requires from in t
  {
    t[to := t[from]]
  }

  function Close(t: Table, fd: nat): Table {
    t - {fd}
  }

  /** Some descriptor of the process refers to `f`. */
  ghost predicate Holds(t: Table, f: File) {
    exists fd :: fd in t && t[fd] == f
  }

  /** Slot `k` of the flattened array `pipes[..][0..1]`: even slots read, odd slots write. */
  function EndOf(k: nat): File {
    if k % 2 == 0 then ReadEnd(k / 2) else WriteEnd(k / 2)
  }

  ghost predicate Distinct(fds: seq<nat>) {
    forall a, b :: 0 <= a < b < |fds| ==> fds[a] != fds[b]
  }

  /** `t` is `base` together with the pipe ends recorded in slots `lo` and above of `fds`. */
  ghost predicate TableIs(t: Table, base: Table, fds: seq<nat>, lo: nat) {
    && (forall fd :: fd in base ==> fd in t && t[fd] == base[fd])
    && (forall k :: lo <= k < |fds| ==> fds[k] in t && t[fds[k]] == EndOf(k))
    && (forall fd :: fd in t ==> fd in base || (exists k :: lo <= k < |fds| && fds[k] == fd))
  }

  /** Which ends such a table holds. */
  lemma TableHolds(t: Table, base: Table, fds: seq<nat>, lo: nat, slot: nat)
    requires TableIs(t, base, fds, lo)
    requires slot < |fds|
    ensures Holds(t, EndOf(slot)) <==> Holds(base, EndOf(slot)) || lo <= slot
  {
    if Holds(base, EndOf(slot)) {
      var fd :| fd in base && base[fd] == EndOf(slot);
      assert fd in t && t[fd] == EndOf(slot);
    }
    if lo <= slot {
      assert fds[slot] in t && t[fds[slot]] == EndOf(slot);
    }
    if Holds(t, EndOf(slot)) && !Holds(base, EndOf(slot)) {
      var fd :| fd in t && t[fd] == EndOf(slot);
      assert fd !in base;
      var k :| lo <= k < |fds| && fds[k] == fd;
      assert EndOf(k) == EndOf(slot);
      assert k == slot;
    }
  }

  /** Closing the descriptors in slot order strips the pipe ends one by one... */
  lemma CloseSlot(t: Table, base: Table, fds: seq<nat>, lo: nat)
    requires TableIs(t, base, fds, lo) && lo < |fds|
    requires Distinct(fds) && (forall k :: 0 <= k < |fds| ==> fds[k] !in base)
    ensures TableIs(Close(t, fds[lo]), base, fds, lo + 1)
  {
    var t' := Close(t, fds[lo]);
    forall k | lo + 1 <= k < |fds| ensures fds[k] in t' && t'[fds[k]] == EndOf(k) {
      assert fds[k] != fds[lo];
    }
    forall fd | fd in t' ensures fd in base || (exists k :: lo + 1 <= k < |fds| && fds[k] == fd) {
      if fd !in base {
        var k :| lo <= k < |fds| && fds[k] == fd;
        assert k != lo;
      }
    }
  }

  /** ...until the base table is back. */
  lemma AllClosed(t: Table, base: Table, fds: seq<nat>)
    requires TableIs(t, base, fds, |fds|)
    ensures t == base
  {
  }

  /** `dup2` onto a standard descriptor rewires the base and keeps the pipe ends. */
  lemma Rewire(t: Table, base: Table, fds: seq<nat>, slot: nat, to: nat)
    requires TableIs(t, base, fds, 0) && slot < |fds|
    requires forall k :: 0 <= k < |fds| ==> fds[k] != to
    ensures TableIs(Dup2(t, fds[slot], to), base[to := EndOf(slot)], fds, 0)
  {
  }

  lemma OpenPipe(t: Table, base: Table, fds: seq<nat>, r: nat, w: nat)
    requires TableIs(t, base, fds, 0) && |fds| % 2 == 0
    requires r !in t && w !in t && r != w
    ensures TableIs(t[r := ReadEnd(|fds| / 2)][w := WriteEnd(|fds| / 2)], base, fds + [r, w], 0)
  {
    var t' := t[r := ReadEnd(|fds| / 2)][w := WriteEnd(|fds| / 2)];
    var fds' := fds + [r, w];
    forall fd | fd in t' ensures fd in base || (exists k :: 0 <= k < |fds'| && fds'[k] == fd) {
      if fd == r {
        assert fds'[|fds|] == fd;
      } else if fd == w {
        assert fds'[|fds| + 1] == fd;
      } else if fd !in base {
        var k :| 0 <= k < |fds| && fds[k] == fd;
        assert fds'[k] == fd;
      }
    }
  }

  /** A finite table always leaves a descriptor free. */
  lemma {:induction false} FreeDescriptor(used: set<nat>) returns (fd: nat)
    ensures forall x :: x in used ==> x < fd
  {
    if used == {} {
      fd := 0;
    } else {
      var x :| x in used;
      var rest := FreeDescriptor(used - {x});
      fd := if x >= rest then x + 1 else rest;
      forall y | y in used ensures y < fd {
        if y != x { assert y in used - {x}; }
      }
    }
  }
}
