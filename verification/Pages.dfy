/** User pages on x86: page-table entries of processes and the frames they name. */
module Pages {

  type Frame = nat
  type Pid = nat

  /** A virtual page of a process. */
  datatype Key = Key(p: Pid, page: nat)

  /** A present user page-table entry: PTE_W and PTE_COW. */
  datatype Pte = Pte(frame: Frame, w: bool, cow: bool)

  predicate ReadOnly(t: Pte) { !t.w && !t.cow }

  /** How uvmcopy leaves an entry in parent and child: what was writable or
      copy-on-write becomes copy-on-write, what was read-only stays so. */
  function Guarded(t: Pte): (u: Pte) {
    if t.w || t.cow then t.(w := false, cow := true) else t
  }
}
