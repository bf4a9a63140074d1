/** A byte buffer that doubles when it is full, seen from outside as the sequence of bytes written to it. */
module DynamicBuffers {
  import opened Vlq

  lemma DigitsUnfold(n: int)
    requires -2 * MAX <= n < 2 * MAX
    ensures Shr(n, 32) == n / 32
    ensures Digits(n) == if n / 32 > 0 then [IntegerToChar(n % 32 + 32)] + Digits(n / 32) else [IntegerToChar(n % 32)]
  {
    Int32Exact(n);
  }

  class DynamicBuffer {
    var buffer: array<int>
    var size: int
    /** What has been written. */
    ghost var contents: seq<int>

    ghost predicate Valid()
      reads this, buffer
    {
      0 <= size <= buffer.Length && buffer.Length > 0 && contents == buffer[..size]
    }

    constructor ()
      ensures Valid() && fresh(buffer) && contents == []
    {
      buffer := new int[512];
      size := 0;
      contents := [];
    }

    method EnsureCapacity(capacity: int)
      requires Valid()
      modifies this
      ensures Valid() && contents == old(contents) && size == old(size)
      ensures buffer.Length >= capacity
      ensures buffer == old(buffer) || (fresh(buffer) && buffer.Length >= 2 * old(buffer.Length))
    {
      if buffer.Length >= capacity {
        return;
      }
      var oldBuffer := buffer;
      var length := if oldBuffer.Length * 2 >= capacity then oldBuffer.Length * 2 else capacity;
      var newBuffer := new int[length];
      var i := 0;
      while i < oldBuffer.Length
        invariant 0 <= i <= oldBuffer.Length
        invariant newBuffer[..i] == oldBuffer[..i]
        modifies newBuffer
      {
        newBuffer[i] := oldBuffer[i];
        i := i + 1;
      }
      assert newBuffer[..size] == newBuffer[..i][..size] == oldBuffer[..i][..size] == oldBuffer[..size];
      buffer := newBuffer;
    }

    method AddByte(b: int)
      requires Valid()
      modifies this, buffer
      ensures Valid() && contents == old(contents) + [b]
      ensures buffer == old(buffer) || fresh(buffer)
    {
      EnsureCapacity(size + 1);
      buffer[size] := b;
      size := size + 1;
      contents := contents + [b];
      assert buffer[..size] == buffer[..size - 1] + [b];
    }

    method AddBuffer(b: seq<int>)
      requires Valid()
      modifies this, buffer
      ensures Valid() && contents == old(contents) + b
      ensures buffer == old(buffer) || fresh(buffer)
    {
      EnsureCapacity(size + |b|);
      var i := 0;
      while i < |b|
        invariant 0 <= i <= |b|
        invariant size + |b| <= buffer.Length && buffer[..size + i] == old(contents) + b[..i]
        modifies buffer
      {
        buffer[size + i] := b[i];
        i := i + 1;
        assert buffer[..size + i] == buffer[..size + i - 1] + [b[i - 1]];
      }
      size := size + |b|;
      contents := contents + b;
      assert b[..i] == b;
    }

    /** The digits of m, least significant first, all but the last with the continuation bit. */
    method AddDigits(m: int)
      requires Valid() && -2 * MAX <= m < 2 * MAX
      modifies this, buffer
      ensures Valid() && contents == old(contents) + Digits(m)
      ensures buffer == old(buffer) || fresh(buffer)
    {
      var num := m;
      ghost var rest := Digits(m);
      var more := true;
      while more
        invariant Valid()
        invariant buffer == old(buffer) || fresh(buffer)
        invariant -2 * MAX <= num < 2 * MAX
        invariant more ==> rest == Digits(num)
        invariant contents + rest == old(contents) + Digits(m)
        invariant !more ==> rest == []
        decreases more, num
      {
        DigitsUnfold(num);
        var clamped := num % 32;
        num := Shr(num, 32);
        more := num > 0;
        if more {
          clamped := clamped + 32;
        }
        AddByte(IntegerToChar(clamped));
        assert rest == [IntegerToChar(clamped)] + rest[1..];
        rest := rest[1..];
      }
    }

    /** num in base 32, with its sign in the lowest bit. */
    method AddVLQ(num: int)
      requires Valid()
      modifies this, buffer
      ensures Valid() && contents == old(contents) + Encode(num)
      ensures buffer == old(buffer) || fresh(buffer)
    {
      ZigzagBound(num);
      // the shifted number is even, so setting its lowest bit adds one
      AddDigits(if num < 0 then Double(-num) + 1 else Double(num));
    }

    method ToBuffer() returns (bytes: seq<int>)
      requires Valid()
      ensures bytes == contents
    {
      bytes := buffer[..size];
    }
  }
}
