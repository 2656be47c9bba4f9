/** The shuffler of kfy.c: a resizable buffer of indices, updated in place. */
module KfyBuffer {
  import opened Words
  import Shuffling

  /** `next_pow_2`.  For larger arguments its loop never ends (Shuffling.NextPow2Terminates). */
  method NextPow2(val: nat) returns (ret: nat)
    requires val < INT_LIMIT
    ensures ret == Shuffling.CapacityFor(val)
  {
    ret := Shuffling.MIN_CAPACITY;
    while ret <= val
      invariant 0 < ret && Shuffling.Doubled(ret, val) == Shuffling.CapacityFor(val)
      decreases if ret <= val then val + 1 - ret else 0
    {
      ret := (2 * ret) % U32;
    }
  }

  /** A successful `realloc`: the common prefix is moved, the rest is whatever the memory holds. */
  method Realloc(a: array<nat>, length: nat) returns (b: array<nat>, ghost moved: nat)
    ensures fresh(b) && b.Length == length
    ensures moved == (if a.Length <= length then a.Length else length)
    ensures forall i :: 0 <= i < moved ==> b[i] == a[i]
  {
    b := new nat[length];
    forall i | 0 <= i < a.Length && i < length {
      b[i] := a[i];
    }
    moved := if a.Length <= length then a.Length else length;
  }

  class Kfy {
    var a: array<nat>
    var end: nat
    var size: nat
    var capacity: nat
    /** The abstract shuffler this buffer stands for. */
    ghost var state: Shuffling.Shuffler
    /** Everything that has happened to it since it was created, ... */
    ghost var history: Shuffling.History
    /** ... the elements that reallocations have moved, and the capacity at the start. */
    ghost var moved: nat
    ghost const start: nat

    /** In every reachable state the indices drawn in this cycle and those left partition the tracks
        (unless some were removed after its first draw), and the reallocations are amortised. */
    ghost predicate Valid()
      reads this, a
    {
      Laid() && Shuffling.Valid(state) && Explained()
    }

    ghost predicate Laid()
      reads this, a
    {
      a.Length == capacity && end <= size < capacity && state == Shuffling.Shuffler(a[..end], size, capacity)
    }

    ghost predicate Explained()
      reads this
    {
      && history.k == state
      && Shuffling.Sound(history)
      && history.moved == moved && Shuffling.Paid(history, start)
    }

    /** The step `op` is entered into the history. */
    ghost method Record(h: Shuffling.History, op: Shuffling.Op)
      requires Shuffling.Sound(h) && Shuffling.Paid(h, start) && Shuffling.Enabled(h.k, op)
      requires state == Shuffling.Step(h, op).k && moved == Shuffling.Step(h, op).moved
      modifies this`history
      ensures history == Shuffling.Step(h, op) && Explained()
    {
      Shuffling.StepKeepsSound(h, op);
      Shuffling.StepPaysForItself(h, op);
      history := Shuffling.Step(h, op);
    }

    constructor (size: nat)
      requires size < INT_LIMIT
      ensures Valid() && fresh(a) && state == Shuffling.Fresh(size)
      ensures history == Shuffling.Begin(state)
    {
      var cap := NextPow2(size);
      Shuffling.FreshIsSound(size);
      var b := new nat[cap];
      var i := 0;
      while i < size
        invariant i <= size
        invariant forall j :: 0 <= j < i ==> b[j] == j
      {
        b[i] := i;
        i := i + 1;
      }
      a := b;
      end := size;
      this.size := size;
      capacity := cap;
      state := Shuffling.Fresh(size);
      history := Shuffling.Begin(Shuffling.Fresh(size));
      moved, start := 0, cap;
      Shuffling.BeginIsPaid(Shuffling.Fresh(size));
      assert b[..size] == Shuffling.Ident(size);
    }

    method Reset(alloc: bool)
      requires Valid()
      modifies this, a
      ensures Valid() && (a == old(a) || fresh(a))
      ensures state == Shuffling.Reset(old(state), alloc)
      ensures history == Shuffling.Step(old(history), Shuffling.OpReset(alloc))
    {
      hide Shuffling.Sound, Shuffling.Paid;
      Shuffling.ResetKeepsValid(state, alloc);
      if size < capacity / 4 && size >= Shuffling.MIN_CAPACITY {
        var newCap := NextPow2(size);
        assert newCap < capacity;
        if alloc {
          ghost var count;
          a, count := Realloc(a, newCap);
          capacity := newCap;
          moved := moved + count;
        }
      }
      FillIdentity(size);
      end := size;
      state := Shuffling.Reset(state, alloc);
      Record(old(history), Shuffling.OpReset(alloc));
    }

    /** The loop `a[i] = i` shared by reset and removal. */
    method FillIdentity(n: nat)
      requires n <= a.Length
      modifies a
      ensures a[..n] == Shuffling.Ident(n)
    {
      var i := 0;
      while i < n
        invariant i <= n
        invariant forall j :: 0 <= j < i ==> a[j] == j
      {
        a[i] := i;
        i := i + 1;
      }
    }

    /** A cycle that is finished starts over. */
    method Refill(alloc: bool)
      requires Valid()
      modifies this, a
      ensures Valid() && (a == old(a) || fresh(a))
      ensures state == if old(state).rest == [] then Shuffling.Reset(old(state), alloc) else old(state)
      ensures moved == old(moved) + if old(state).rest == [] then Shuffling.MovedByReset(old(state), alloc) else 0
      ensures end == |state.rest| && size == old(state).size
    {
      hide Shuffling.Sound, Shuffling.Paid, Shuffling.CapacityFor;
      if end == 0 {
        Reset(alloc);
      }
    }

    /** The last index left takes the place of the one drawn. */
    method TakeOut(index: nat) returns (val: nat)
      requires Laid() && index < end
      modifies this`end, this`state, a
      ensures Laid()
      ensures val == old(state).rest[index]
      ensures state == old(state).(rest := Shuffling.TakeOut(old(state).rest, index))
    {
      ghost var pool := a[..end];
      end := end - 1;
      val := a[index];
      a[index] := a[end];
      assert a[..end] == Shuffling.TakeOut(pool, index);
      state := state.(rest := a[..end]);
    }

    /** A draw, not yet entered into the history. */
    method TakeFromPool(index: nat, alloc: bool) returns (val: nat)
      requires Valid() && index < |Shuffling.Pool(state)|
      modifies this, a
      ensures Laid() && (a == old(a) || fresh(a)) && size == old(state).size
      ensures state == Shuffling.Draw(old(state), index, alloc) && val == Shuffling.Pool(old(state))[index]
      ensures moved == old(moved) + if old(state).rest == [] then Shuffling.MovedByReset(old(state), alloc) else 0
    {
      Refill(alloc);
      hide Shuffling.Valid, Shuffling.CapacityFor, Explained;
      val := TakeOut(index);
    }

    /** `index` is the number that `random_uint_range(0, end)` returns, both ends included. */
    method Shuffle(index: nat, alloc: bool) returns (val: nat)
      requires Valid() && index < |Shuffling.Pool(state)|
      modifies this, a
      ensures Valid() && (a == old(a) || fresh(a))
      ensures state == Shuffling.Draw(old(state), index, alloc)
      ensures history == Shuffling.Step(old(history), Shuffling.OpDraw(index, alloc))
      ensures val == Shuffling.Pool(old(state))[index] && val < size
    {
      Shuffling.DrawKeepsValid(state, index, alloc);
      Shuffling.DrawStep(history, index, alloc);
      hide Laid, Shuffling.Sound, Shuffling.Paid, Shuffling.Step, Shuffling.Valid, Shuffling.CapacityFor;
      val := TakeFromPool(index, alloc);
      Record(old(history), Shuffling.OpDraw(index, alloc));
    }

    method Add(cnt: nat, alloc: bool) returns (ok: bool)
      requires Valid() && size + cnt < INT_LIMIT
      modifies this, a
      ensures Valid() && (a == old(a) || fresh(a))
      ensures ok == Shuffling.AddSucceeds(old(state), cnt, alloc)
      ensures state == Shuffling.Add(old(state), cnt, alloc)
      ensures history == Shuffling.Step(old(history), Shuffling.OpAdd(cnt, alloc))
    {
      Shuffling.AddKeepsValid(state, cnt, alloc);
      Shuffling.AddStep(history, cnt, alloc);
      hide Shuffling.Sound, Shuffling.Paid, Shuffling.Step, Shuffling.Valid, Shuffling.IsCapacity;
      var newSize := size + cnt;
      if newSize >= capacity {
        var newCap := NextPow2(newSize);
        assert newCap > capacity;
        if !alloc {
          return false;
        }
        Enlarge(newCap);
      }
      Append(cnt);
      Record(old(history), Shuffling.OpAdd(cnt, alloc));
      return true;
    }

    method Enlarge(newCap: nat)
      requires Laid() && capacity <= newCap
      modifies this`a, this`capacity, this`state, this`moved
      ensures Laid() && fresh(a) && moved == old(moved) + old(capacity)
      ensures state == old(state).(capacity := newCap)
    {
      ghost var count;
      ghost var kept := a[..end];
      a, count := Realloc(a, newCap);
      assert a[..end] == kept;
      capacity := newCap;
      moved := moved + count;
      state := state.(capacity := newCap);
    }

    method Append(cnt: nat)
      requires Laid() && size + cnt < capacity
      modifies this`end, this`size, this`state, a
      ensures Laid()
      ensures state == Shuffling.Shuffler(old(state).rest + Shuffling.Block(old(size), cnt), old(size) + cnt, capacity)
    {
      AppendBlock(a, end + cnt);
      state := Shuffling.Shuffler(state.rest + Shuffling.Block(size, cnt), size + cnt, capacity);
      size := size + cnt;
      end := end + cnt;
    }

    /** The loop `a[i] = size + i - end`, for `i` from `end` to `newEnd`. */
    method AppendBlock(b: array<nat>, newEnd: nat)
      requires end <= newEnd <= b.Length
      modifies b
      ensures b[..newEnd] == old(b[..end]) + Shuffling.Block(size, newEnd - end)
    {
      var i := end;
      while i < newEnd
        invariant end <= i <= newEnd
        invariant forall j :: 0 <= j < end ==> b[j] == old(b[j])
        invariant forall j :: end <= j < i ==> b[j] == size + j - end
      {
        b[i] := size + i - end;
        i := i + 1;
      }
    }

    method Remove(cnt: nat)
      requires Valid() && cnt <= size
      modifies this, a
      ensures Valid() && a == old(a)
      ensures state == Shuffling.Remove(old(state), cnt)
      ensures history == Shuffling.Step(old(history), Shuffling.OpRemove(cnt))
    {
      hide Shuffling.Sound, Shuffling.Paid;
      if cnt > 0 {
        end := if end >= cnt then end - cnt else 0;
        size := size - cnt;
        FillIdentity(end);
        state := Shuffling.Remove(state, cnt);
        Record(old(history), Shuffling.OpRemove(cnt));
      }
    }

    predicate CycleDone()
      reads this
    {
      end == 0
    }
  }
}
