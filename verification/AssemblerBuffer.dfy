// The growing byte buffer that instructions are put into.
module AssemblerBuffer {
  import opened ArmWords

  type Byte = b: int | 0 <= b < 0x100

  // ---- Words in little-endian bytes -----------------------------------------------------

  function ToBytes(n: U32): (b: seq<Byte>)
    ensures |b| == 4
  {
    [n % 0x100, n / 0x100 % 0x100, n / 0x1_0000 % 0x100, n / 0x100_0000]
  }

  function ToNumber(b0: Byte, b1: Byte, b2: Byte, b3: Byte): U32
  {
    b0 + 0x100 * b1 + 0x1_0000 * b2 + 0x100_0000 * b3
  }

  lemma BytesRoundTrip(n: U32)
    ensures var b := ToBytes(n); ToNumber(b[0], b[1], b[2], b[3]) == n
  {
    assert n == 0x100 * (n / 0x100) + n % 0x100;
    assert n / 0x100 == 0x100 * (n / 0x1_0000) + n / 0x100 % 0x100;
    assert n / 0x1_0000 == 0x100 * (n / 0x100_0000) + n / 0x1_0000 % 0x100;
  }

  function WordBytes(w: Word): (b: seq<Byte>)
    ensures |b| == 4
  {
    ToBytes(Value(w))
  }

  // The lowest byte comes first.
  lemma BytesAreLittleEndian(w: Word)
    ensures var b := WordBytes(w);
      Value(w) as int == b[0] as int + 0x100 * (b[1] as int) + 0x1_0000 * (b[2] as int) + 0x100_0000 * (b[3] as int)
  {
    BytesRoundTrip(Value(w));
    hide Value;
  }

  function WordAt(b: seq<Byte>, i: nat): Word
    requires 4 * i + 4 <= |b|
  {
    FromValue(ToNumber(b[4 * i], b[4 * i + 1], b[4 * i + 2], b[4 * i + 3]))
  }

  lemma WordBytesRoundTrip(w: Word)
    ensures WordAt(WordBytes(w), 0) == w
  {
    BytesRoundTrip(Value(w));
    ValueIsInjective(FromValue(Value(w)), w);
  }

  // The bytes read as whole words.
  function Words(b: seq<Byte>): (ws: seq<Word>)
    ensures |ws| == |b| / 4
  {
    seq(|b| / 4, (i: nat) requires i < |b| / 4 => WordAt(b, i))
  }

  function AllBytes(ws: seq<Word>): (b: seq<Byte>)
    ensures |b| == 4 * |ws|
  {
    if ws == [] then [] else AllBytes(ws[..|ws| - 1]) + WordBytes(ws[|ws| - 1])
  }

  lemma SameBytesSameWord(b: seq<Byte>, i: nat, c: seq<Byte>, j: nat)
    requires 4 * i + 4 <= |b| && 4 * j + 4 <= |c| && b[4 * i..4 * i + 4] == c[4 * j..4 * j + 4]
    ensures WordAt(b, i) == WordAt(c, j)
  {
    hide FromValue, ToNumber;
    var x, y := b[4 * i..4 * i + 4], c[4 * j..4 * j + 4];
    assert x[0] == y[0] && x[1] == y[1] && x[2] == y[2] && x[3] == y[3];
  }

  lemma WordsOfPut(b: seq<Byte>, w: Word)
    requires |b| % 4 == 0
    ensures Words(b + WordBytes(w)) == Words(b) + [w]
  {
    hide WordAt, WordBytes;
    var c := b + WordBytes(w);
    var n := |b| / 4;
    forall i | 0 <= i < n ensures WordAt(c, i) == WordAt(b, i) {
      assert c[4 * i..4 * i + 4] == b[4 * i..4 * i + 4];
      SameBytesSameWord(c, i, b, i);
    }
    assert c[4 * n..4 * n + 4] == WordBytes(w) == WordBytes(w)[4 * 0..4 * 0 + 4];
    SameBytesSameWord(c, n, WordBytes(w), 0);
    WordBytesRoundTrip(w);
  }

  lemma {:induction false} WordsOfAppend(b: seq<Byte>, ws: seq<Word>)
    requires |b| % 4 == 0
    ensures Words(b + AllBytes(ws)) == Words(b) + ws
  {
    hide WordBytes, Words;
    if ws == [] {
      assert b + AllBytes(ws) == b;
    } else {
      var init := ws[..|ws| - 1];
      WordsOfAppend(b, init);
      WordsOfPut(b + AllBytes(init), ws[|ws| - 1]);
      assert b + AllBytes(ws) == (b + AllBytes(init)) + WordBytes(ws[|ws| - 1]);
      assert Words(b) + ws == (Words(b) + init) + [ws[|ws| - 1]];
    }
  }

  function Overwrite(b: seq<Byte>, i: nat, w: Word): (c: seq<Byte>)
    requires 4 * i + 4 <= |b|
    ensures |c| == |b|
  {
    b[..4 * i] + WordBytes(w) + b[4 * i + 4..]
  }

  lemma WordsOfOverwrite(b: seq<Byte>, i: nat, w: Word)
    requires 4 * i + 4 <= |b|
    ensures i < |b| / 4 && Words(Overwrite(b, i, w)) == Words(b)[i := w]
  {
    hide WordAt, WordBytes;
    var c := Overwrite(b, i, w);
    forall k | 0 <= k < |b| / 4 && k != i ensures WordAt(c, k) == WordAt(b, k) {
      assert c[4 * k..4 * k + 4] == b[4 * k..4 * k + 4];
      SameBytesSameWord(c, k, b, k);
    }
    assert c[4 * i..4 * i + 4] == WordBytes(w) == WordBytes(w)[4 * 0..4 * 0 + 4];
    SameBytesSameWord(c, i, WordBytes(w), 0);
    WordBytesRoundTrip(w);
  }

  // ---- The buffer ----------------------------------------------------------------------------

  const INLINE_CAPACITY := 256

  class Buffer {
    var buffer: array<Byte>
    var capacity: nat
    var size: nat

    ghost predicate Valid()
      reads this
    {
      size <= capacity == buffer.Length && INLINE_CAPACITY <= capacity
    }

    ghost function Contents(): (s: seq<Byte>)
      reads this, buffer
      requires Valid()
      ensures |s| == size
    {
      buffer[..size]
    }

    constructor ()
      ensures Valid() && fresh(buffer) && Contents() == [] && capacity == INLINE_CAPACITY
    {
      buffer := new Byte[INLINE_CAPACITY](_ => 0);
      capacity := INLINE_CAPACITY;
      size := 0;
    }

    // Growing moves the contents and keeps every byte of them.
    method Grow(extraCapacity: nat := 0)
      requires Valid()
      modifies this
      ensures Valid() && fresh(buffer) && Contents() == old(Contents()) && size == old(size)
      ensures capacity == old(capacity) + old(capacity) / 2 + extraCapacity
    {
      capacity := capacity + capacity / 2 + extraCapacity;
      var newBuffer := new Byte[capacity](_ => 0);
      forall i | 0 <= i < size {
        newBuffer[i] := buffer[i];
      }
      buffer := newBuffer;
    }

    // One growth by half is all there is: a larger request is left without its room.
    method EnsureSpace(space: nat)
      requires Valid()
      modifies this
      ensures Valid() && (buffer == old(buffer) || fresh(buffer))
      ensures Contents() == old(Contents()) && size == old(size)
      ensures size + space <= capacity <==> size + space <= old(capacity) + old(capacity) / 2
    {
      if size > capacity - space {
        Grow();
      }
    }

    // The mask of the source is this remainder for a power of two, as all alignments are.
    function IsAligned(alignment: nat): bool
      requires alignment > 0
      reads this
    {
      size % alignment == 0
    }

    // Every put writes behind the contents, after growing if four bytes would not fit.
    method PutByte(value: Byte)
      requires Valid()
      modifies this, buffer
      ensures Valid() && (buffer == old(buffer) || fresh(buffer))
      ensures Contents() == old(Contents()) + [value]
      ensures capacity == old(capacity) + if old(size) + 4 > old(capacity) then old(capacity) / 2 else 0
    {
      if size > capacity - 4 {
        Grow();
      }
      buffer[size] := value;
      size := size + 1;
    }

    method PutShort(low: Byte, high: Byte)
      requires Valid()
      modifies this, buffer
      ensures Valid() && (buffer == old(buffer) || fresh(buffer))
      ensures Contents() == old(Contents()) + [low, high]
      ensures capacity == old(capacity) + if old(size) + 4 > old(capacity) then old(capacity) / 2 else 0
    {
      if size > capacity - 4 {
        Grow();
      }
      buffer[size], buffer[size + 1] := low, high;
      size := size + 2;
    }

    method PutIntUnchecked(w: Word)
      requires Valid() && size <= capacity - 4
      modifies this`size, buffer
      ensures Valid() && buffer == old(buffer)
      ensures Contents() == old(Contents()) + WordBytes(w)
    {
      var b := WordBytes(w);
      buffer[size], buffer[size + 1], buffer[size + 2], buffer[size + 3] := b[0], b[1], b[2], b[3];
      size := size + 4;
      assert buffer[..size] == old(buffer[..size]) + [b[0], b[1], b[2], b[3]];
    }

    method PutInt(w: Word)
      requires Valid()
      modifies this, buffer
      ensures Valid() && (buffer == old(buffer) || fresh(buffer))
      ensures Contents() == old(Contents()) + WordBytes(w)
      ensures capacity == old(capacity) + if old(size) + 4 > old(capacity) then old(capacity) / 2 else 0
    {
      if size > capacity - 4 {
        Grow();
      }
      PutIntUnchecked(w);
    }

    method Append(data: seq<Byte>)
      requires Valid()
      modifies this, buffer
      ensures Valid() && (buffer == old(buffer) || fresh(buffer))
      ensures Contents() == old(Contents()) + data
      ensures capacity == old(capacity) + if old(size) + |data| > old(capacity) then old(capacity) / 2 + |data| else 0
    {
      if size > capacity - |data| {
        Grow(|data|);
      }
      forall i | 0 <= i < |data| {
        buffer[size + i] := data[i];
      }
      size := size + |data|;
    }

    // Reading and writing a word in place, as the patching code does through pointers.
    method GetWord(i: nat) returns (w: Word)
      requires Valid() && 4 * i + 4 <= size
      ensures w == WordAt(Contents(), i)
    {
      w := FromValue(ToNumber(buffer[4 * i], buffer[4 * i + 1], buffer[4 * i + 2], buffer[4 * i + 3]));
    }

    method SetWord(i: nat, w: Word)
      requires Valid() && 4 * i + 4 <= size
      modifies buffer
      ensures Valid() && Contents() == Overwrite(old(Contents()), i, w)
    {
      var b := WordBytes(w);
      buffer[4 * i], buffer[4 * i + 1], buffer[4 * i + 2], buffer[4 * i + 3] := b[0], b[1], b[2], b[3];
      assert b == [b[0], b[1], b[2], b[3]];
    }
  }
}
