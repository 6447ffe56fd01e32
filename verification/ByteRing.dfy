/**
  The byte ring between the logging thread and the draining thread: a fixed circular array
  with free-running put and get indices, refining a byte sequence.
 */
module ByteRing {
  import opened Words

  const RING_SIZE: nat := 2048

  function Slot(index: nat): (s: nat)
    ensures s < RING_SIZE
  {
    index % RING_SIZE
  }

  lemma SlotsDistinct(a: nat, b: nat)
    requires a < b < a + RING_SIZE
    ensures Slot(a) != Slot(b)
  {
  }

  function Window(cells: seq<byte>, first: nat, count: nat): (s: seq<byte>)
    requires |cells| == RING_SIZE
    ensures |s| == count && forall k :: 0 <= k < count ==> s[k] == cells[Slot(first + k)]
  {
    seq(count, k requires 0 <= k < count => cells[Slot(first + k)])
  }

  /** Writing the cell just past a window that leaves room extends it by one byte. */
  lemma WindowExtend(cells: seq<byte>, first: nat, count: nat, b: byte)
    requires |cells| == RING_SIZE && count < RING_SIZE
    ensures Window(cells[Slot(first + count) := b], first, count + 1) == Window(cells, first, count) + [b]
  {
    forall i | first <= i < first + count
      ensures Slot(i) != Slot(first + count)
    {
      SlotsDistinct(i, first + count);
    }
  }

  function Least(a: nat, b: nat): nat { if a < b then a else b }

  class Ring {
    const cells: array<byte>
    var putIndex: nat
    var getIndex: nat

    ghost predicate Valid()
      reads this
    {
      cells.Length == RING_SIZE && getIndex <= putIndex <= getIndex + RING_SIZE
    }

    ghost function Contents(): (s: seq<byte>)
      requires Valid()
      reads this, cells
      ensures |s| == putIndex - getIndex
    {
      Window(cells[..], getIndex, putIndex - getIndex)
    }

    constructor ()
      ensures Valid() && fresh(cells) && Contents() == []
    {
      cells := new byte[RING_SIZE](_ => 0);
      putIndex, getIndex := 0, 0;
    }

    function Size(): (n: nat)
      requires Valid()
      reads this, cells
      ensures n == |Contents()| <= RING_SIZE
    {
      putIndex - getIndex
    }

    function Space(): (n: nat)
      requires Valid()
      reads this, cells
      ensures n == RING_SIZE - |Contents()|
    {
      RING_SIZE - (putIndex - getIndex)
    }

    /** Writes as much of bytes as fits. */
    method Put(bytes: seq<byte>) returns (n: nat)
      requires Valid()
      modifies this, cells
      ensures Valid()
      ensures n == Least(|bytes|, RING_SIZE - |old(Contents())|)
      ensures Contents() == old(Contents()) + bytes[..n]
    {
      n := Least(|bytes|, Space());
      ghost var first, held := getIndex, Contents();
      assert bytes[..0] == [] && held + [] == held;
      for i := 0 to n
        invariant getIndex == first && putIndex == first + |held| && Valid()
        invariant Window(cells[..], first, |held| + i) == held + bytes[..i]
      {
        WindowExtend(cells[..], first, |held| + i, bytes[i]);
        assert first + (|held| + i) == putIndex + i;
        cells[Slot(putIndex + i)] := bytes[i];
        assert bytes[..i + 1] == bytes[..i] + [bytes[i]];
      }
      putIndex := putIndex + n;
    }

    method Peek(wanted: nat) returns (bytes: seq<byte>)
      requires Valid()
      ensures bytes == Contents()[..Least(wanted, |Contents()|)]
    {
      var n := Least(wanted, Size());
      bytes := [];
      for i := 0 to n
        invariant bytes == Contents()[..i]
      {
        bytes := bytes + [cells[Slot(getIndex + i)]];
      }
    }

    method Get(wanted: nat) returns (bytes: seq<byte>)
      requires Valid()
      modifies this
      ensures Valid()
      ensures bytes == old(Contents())[..Least(wanted, |old(Contents())|)]
      ensures Contents() == old(Contents())[|bytes|..]
    {
      bytes := Peek(wanted);
      ghost var held := Contents();
      getIndex := getIndex + |bytes|;
      assert forall k :: 0 <= k < |Contents()| ==> Contents()[k] == held[|bytes| + k] by {
        forall k | 0 <= k < |Contents()|
          ensures Contents()[k] == held[|bytes| + k]
        {
          assert getIndex + k == old(getIndex) + (|bytes| + k);
        }
      }
    }
  }
}
