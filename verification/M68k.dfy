// The MC68010's decrement-and-branch, which counts in the low sixteen bits of its
// register and so runs a loop entered at the top one time more than the count.
module M68k {
  import opened Buffers

  // DBcc: nothing but a fall through if the condition holds; otherwise the low word is
  // decremented and the branch is taken unless it became -1.
  function Dbcc(condition: bool, d: U32): (r: (bool, U32))
    ensures r.0 <==> !condition && d % 0x1_0000 != 0
    ensures !condition && d % 0x1_0000 != 0 ==> r.1 == d - 1
  {
    if condition then (false, d)
    else
      var low := (d % 0x1_0000 - 1) % 0x1_0000;
      (low != 0xffff, d - d % 0x1_0000 + low)
  }

  // How many times the body of a loop closed by `dbra` runs.
  function Times(d: U32): nat {
    d % 0x1_0000 + 1
  }
}
