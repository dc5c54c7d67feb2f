/** The memory test before a task is created: overflow-guarded sums against the heap's state. */
module TaskAdmission {

  const TWO32 := 0x1_0000_0000

  /** A 32-bit size. */
  type Size = n: int | 0 <= n < TWO32

  const SIZE_MAX: Size := TWO32 - 1
  const OVERHEAD: Size := 1024
  const RESERVE: Size := 32 * 1024

  datatype Role = SystemRole | ForegroundRole | BackgroundRole

  /** Free bytes and largest free block of internal and external memory. */
  datatype Heap = Heap(free: Size, largest: Size, externalFree: Size, externalLargest: Size)

  /** task_add_size */
  method AddSize(left: Size, right: Size) returns (ok: bool, sum: Size)
    ensures ok <==> left + right <= SIZE_MAX
    ensures ok ==> sum == left + right
  {
    if left > SIZE_MAX - right {
      return false, 0;
    }
    return true, left + right;
  }

  /** What a launch may take, and what must be left, as plain numbers. */
  function InternalNeed(stack: Size, external: bool): nat {
    if external then OVERHEAD else stack + OVERHEAD
  }

  function Spared(role: Role): nat {
    if role == BackgroundRole then RESERVE else 0
  }

  /** The decision the guarded arithmetic stands for. */
  predicate Admitted(stack: Size, role: Role, external: bool, heap: Heap) {
    if external then
      && heap.free >= OVERHEAD + Spared(role) && heap.largest >= OVERHEAD
      && heap.externalFree >= stack && heap.externalLargest >= stack
    else
      role == SystemRole || (heap.free >= stack + OVERHEAD + Spared(role) && heap.largest >= stack + OVERHEAD)
  }

  /** task_internal_admitted: a sum that would overflow could not be met either. */
  method InternalAdmitted(stack: Size, role: Role, heap: Heap) returns (admitted: bool)
    ensures admitted <==> Admitted(stack, role, false, heap)
  {
    if role == SystemRole {
      return true;
    }
    var ok, taskRequired := AddSize(stack, OVERHEAD);
    if !ok {
      return false;
    }
    var totalRequired := taskRequired;
    if role == BackgroundRole {
      ok, totalRequired := AddSize(totalRequired, RESERVE);
      if !ok {
        return false;
      }
    }
    return heap.free >= totalRequired && heap.largest >= taskRequired;
  }

  /** task_external_admitted */
  method ExternalAdmitted(stack: Size, role: Role, heap: Heap) returns (admitted: bool)
    ensures admitted <==> Admitted(stack, role, true, heap)
  {
    var internalRequired := OVERHEAD;
    if role == BackgroundRole {
      var ok;
      ok, internalRequired := AddSize(internalRequired, RESERVE);
      if !ok {
        assert false;  // two constants
      }
    }
    return heap.free >= internalRequired && heap.largest >= OVERHEAD
        && heap.externalFree >= stack && heap.externalLargest >= stack;
  }

  /** solar_os_task_can_create; without external-stack support every stack is internal. */
  method CanCreate(stack: Size, role: Role, external: bool, supported: bool, heap: Heap) returns (admitted: bool)
    ensures admitted <==> stack != 0 && Admitted(stack, role, external && supported, heap)
    ensures var spared := if role.BackgroundRole? then 32 * 1024 else 0;
      if external && supported then
        admitted <==> && 0 < stack <= heap.externalFree && stack <= heap.externalLargest
                      && 1024 + spared <= heap.free && 1024 <= heap.largest
      else
        admitted <==> stack > 0 && (role.SystemRole? || (stack + 1024 + spared <= heap.free
                                                         && stack + 1024 <= heap.largest))
  {
    if stack == 0 {
      return false;
    }
    if supported && external {
      admitted := ExternalAdmitted(stack, role, heap);
    } else {
      admitted := InternalAdmitted(stack, role, heap);
    }
  }
}
