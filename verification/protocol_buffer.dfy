/**
  `protocol::Buffer`: a fixed array of 1024 characters, filled at one end and compacted in place.

  `Buf` is the value of a buffer, all its memory and its size; the class changes the array in
  place, and every method is specified by what it does to that value.
 */
module ProtocolBuffer {
  import opened OperatingSystem
  import opened Wrappers
  import Lines
  import NetIo

  const BUFFER_SIZE := 1024
  const NEWLINE := '\n'

  datatype Buf = Buf(mem: string, size: nat)

  predicate ValidBuf(b: Buf) {
    |b.mem| == BUFFER_SIZE && b.size <= BUFFER_SIZE
  }

  function Contents(b: Buf): string
    requires ValidBuf(b)
  {
    b.mem[..b.size]
  }

  function FreeSpace(b: Buf): nat
    requires ValidBuf(b)
  {
    BUFFER_SIZE - b.size
  }

  /** The value after dropping the first len characters; the freed end of the memory keeps its characters. */
  function Compacted(b: Buf, len: nat): (b': Buf)
    requires ValidBuf(b) && len <= b.size
    ensures ValidBuf(b') && Contents(b') == Contents(b)[len..]
  {
    Buf(b.mem[len..b.size] + b.mem[b.size - len..], b.size - len)
  }

  lemma CompactedNothing(b: Buf)
    requires ValidBuf(b)
    ensures Compacted(b, 0) == b
  {
    assert b.mem[0..b.size] + b.mem[b.size..] == b.mem;
  }

  function FirstLine(b: Buf, delim: char): (n: nat)
    requires ValidBuf(b)
    ensures n <= b.size
  {
    Lines.FirstLength(Contents(b), delim)
  }

  /** The value once every complete line has been taken out. */
  function Drained(b: Buf, delim: char): (b': Buf)
    requires ValidBuf(b)
    ensures ValidBuf(b')
    decreases b.size
  {
    var n := FirstLine(b, delim);
    if n == 0 then b else Drained(Compacted(b, n), delim)
  }

  /** Taking out lines one at a time leaves exactly the unfinished line. */
  lemma {:induction false} DrainedContents(b: Buf, delim: char)
    requires ValidBuf(b)
    ensures Contents(Drained(b, delim)) == Lines.Rest(Contents(b), delim)
    decreases b.size
  {
    var n := FirstLine(b, delim);
    if n == 0 {
      Lines.CompleteNone(Contents(b), delim);
    } else {
      DrainedContents(Compacted(b, n), delim);
      Lines.CompleteFirst(Contents(b), delim);
    }
  }

  // ----- draining to a descriptor -----

  datatype DrainResult = DrainResult(ok: bool, kernel: Kernel, buf: Buf)

  /** Each line is written before it is taken out, so a line whose write fails stays in the buffer. */
  function DrainTo(k: Kernel, fd: int, b: Buf, delim: char): (r: DrainResult)
    requires ValidBuf(b)
    ensures ValidBuf(r.buf)
    decreases b.size
  {
    var n := FirstLine(b, delim);
    if n == 0 then
      DrainResult(true, k, b)
    else
      var w := NetIo.WriteAll(k, fd, b.mem[..n]);
      if w.0 then DrainTo(w.1, fd, Compacted(b, n), delim) else DrainResult(false, w.1, b)
  }

  /** Writes lines in order until one fails; `done` counts the lines written in full. */
  datatype SentLines = SentLines(done: nat, kernel: Kernel)

  function SendLines(k: Kernel, fd: int, lines: seq<string>): (r: SentLines)
    ensures r.done <= |lines|
    decreases |lines|
  {
    if lines == [] then
      SentLines(0, k)
    else
      var w := NetIo.WriteAll(k, fd, lines[0]);
      if !w.0 then SentLines(0, w.1)
      else
        var rest := SendLines(w.1, fd, lines[1..]);
        SentLines(1 + rest.done, rest.kernel)
  }

  /** The lines written in full, put together. */
  function SentText(k: Kernel, fd: int, lines: seq<string>): string {
    Lines.Concat(lines[..SendLines(k, fd, lines).done])
  }

  lemma {:induction false} SentTextCons(k: Kernel, fd: int, first: string, rest: seq<string>)
    requires NetIo.WriteAll(k, fd, first).0
    ensures SentText(k, fd, [first] + rest) == first + SentText(NetIo.WriteAll(k, fd, first).1, fd, rest)
  {
    var lines := [first] + rest;
    assert lines[1..] == rest;
    var done := SendLines(NetIo.WriteAll(k, fd, first).1, fd, rest).done;
    assert lines[..1 + done][1..] == rest[..done];
  }

  /** What a drain has to do with sending lines in order. */
  predicate DrainsLike(b: Buf, delim: char, r: DrainResult, lines: seq<string>, sent: SentLines, text: string)
    requires ValidBuf(b) && ValidBuf(r.buf)
  {
    r.kernel == sent.kernel &&
    (r.ok <==> sent.done == |lines|) &&
    text + Contents(r.buf) == Contents(b) &&
    (r.ok ==> r.buf == Drained(b, delim))
  }

  lemma {:induction false} DrainsLikeCons(b: Buf, delim: char, n: nat, r: DrainResult, lines: seq<string>,
                                          sent: SentLines, text: string)
    requires ValidBuf(b) && ValidBuf(r.buf) && n == FirstLine(b, delim) > 0
    requires DrainsLike(Compacted(b, n), delim, r, lines, sent, text)
    ensures DrainsLike(b, delim, r, [b.mem[..n]] + lines, SentLines(1 + sent.done, sent.kernel), b.mem[..n] + text)
  {
    var tail := Contents(Compacted(b, n));
    assert Contents(b) == b.mem[..n] + tail;
    assert b.mem[..n] + (text + Contents(r.buf)) == b.mem[..n] + text + Contents(r.buf);
  }

  lemma {:induction false} SplitCons(b: Buf, delim: char)
    requires ValidBuf(b) && FirstLine(b, delim) > 0
    ensures Lines.Split(Contents(b), delim)
         == [b.mem[..FirstLine(b, delim)]] + Lines.Split(Contents(Compacted(b, FirstLine(b, delim))), delim)
  {
    assert Contents(b)[..FirstLine(b, delim)] == b.mem[..FirstLine(b, delim)];
  }

  /**
    Draining is one `write_full` per complete line, in order, up to the first failure; the buffer is
    left with the lines that were not written in full, the failing one included, and the unfinished line.
   */
  lemma {:induction false} DrainIsSendLines(k: Kernel, fd: int, b: Buf, delim: char, lines: seq<string>)
    requires ValidBuf(b) && lines == Lines.Split(Contents(b), delim)
    ensures DrainsLike(b, delim, DrainTo(k, fd, b, delim), lines, SendLines(k, fd, lines), SentText(k, fd, lines))
    decreases b.size
  {
    var n := FirstLine(b, delim);
    if n > 0 {
      SplitCons(b, delim);
      var first, next := b.mem[..n], Compacted(b, n);
      var rest := Lines.Split(Contents(next), delim);
      var w := NetIo.WriteAll(k, fd, first);
      if w.0 {
        DrainIsSendLines(w.1, fd, next, delim, rest);
        SentTextCons(k, fd, first, rest);
        DrainsLikeCons(b, delim, n, DrainTo(w.1, fd, next, delim), rest, SendLines(w.1, fd, rest),
          SentText(w.1, fd, rest));
        assert lines[1..] == rest;
      } else {
        NothingSent(k, fd, b, delim, lines);
      }
    }
  }

  lemma {:induction false} NothingSent(k: Kernel, fd: int, b: Buf, delim: char, lines: seq<string>)
    requires ValidBuf(b) && lines != []
    requires !NetIo.WriteAll(k, fd, lines[0]).0
    ensures DrainsLike(b, delim, DrainResult(false, NetIo.WriteAll(k, fd, lines[0]).1, b), lines,
                       SendLines(k, fd, lines), SentText(k, fd, lines))
  {
    assert SentText(k, fd, lines) == "";
  }

  /**
    What draining puts on the wire: the lines taken out of the buffer, then, after a failure, a proper
    prefix of the first line still in it. So no byte is lost and none is out of order.
   */
  predicate DrainSends(c: Channel, c': Channel, b: Buf, b': Buf, ok: bool, delim: char, full: string, partial: string)
    requires ValidBuf(b) && ValidBuf(b')
  {
    NetIo.Sends(c, c', full + partial) &&
    full + Contents(b') == Contents(b) &&
    Lines.WholeLines(full, delim) && Lines.Fragment(partial, Contents(b'), delim) &&
    (ok ==>
       partial == "" && full == Lines.Complete(Contents(b), delim) &&
       Contents(b') == Lines.Rest(Contents(b), delim)) &&
    (!ok ==> FirstLine(b', delim) > 0)
  }

  lemma PutTogether(first: string, full: string, left: string, rest: string)
    requires full + left == rest
    ensures first + full + left == first + rest
  {
  }

  lemma {:induction false} DrainTextFirst(text: string, n: nat, delim: char, ok: bool, full: string, left: string)
    requires n == Lines.FirstLength(text, delim) > 0 && full + left == text[n..]
    requires ok ==> full == Lines.Complete(text[n..], delim) && left == Lines.Rest(text[n..], delim)
    requires Lines.WholeLines(full, delim)
    ensures text[..n] + full + left == text && Lines.WholeLines(text[..n] + full, delim)
    ensures ok ==> text[..n] + full == Lines.Complete(text, delim) && left == Lines.Rest(text, delim)
  {
    PutTogether(text[..n], full, left, text[n..]);
    if ok {
      Lines.CompleteFirst(text, delim);
    }
    Lines.WholeLinesAppend(text[..n], full, delim);
  }

  lemma {:induction false} DrainSendsFirst(c0: Channel, c1: Channel, c2: Channel, b: Buf, b': Buf, ok: bool,
                                           delim: char, full: string, partial: string)
    requires ValidBuf(b) && ValidBuf(b') && FirstLine(b, delim) > 0
    requires NetIo.Sends(c0, c1, b.mem[..FirstLine(b, delim)])
    requires DrainSends(c1, c2, Compacted(b, FirstLine(b, delim)), b', ok, delim, full, partial)
    ensures DrainSends(c0, c2, b, b', ok, delim, b.mem[..FirstLine(b, delim)] + full, partial)
  {
    var n, text := FirstLine(b, delim), Contents(b);
    var first := b.mem[..n];
    assert text[..n] == first;
    NetIo.SendsTwice(c0, c1, c2, first, full + partial);
    assert first + (full + partial) == first + full + partial;
    DrainTextFirst(text, n, delim, ok, full, Contents(b'));
  }

  /** A drain touches one channel only, and puts on it what `DrainSends` says. */
  predicate DrainEffect(k: Kernel, fd: int, b: Buf, r: DrainResult, delim: char, full: string, partial: string)
    requires ValidBuf(b) && ValidBuf(r.buf) && IsOpen(k, fd)
  {
    IsOpen(r.kernel, fd) && r.kernel == WithChannel(k, fd, ChannelOf(r.kernel, fd)) &&
    DrainSends(ChannelOf(k, fd), ChannelOf(r.kernel, fd), b, r.buf, r.ok, delim, full, partial)
  }

  lemma {:induction false} DrainEffectNone(k: Kernel, fd: int, b: Buf, delim: char)
    requires ValidBuf(b) && IsOpen(k, fd) && FirstLine(b, delim) == 0
    ensures DrainEffect(k, fd, b, DrainResult(true, k, b), delim, "", "")
  {
    Lines.CompleteNone(Contents(b), delim);
    assert k.channels[k.table[fd] := ChannelOf(k, fd)] == k.channels;
  }

  lemma {:induction false} DrainEffectFailed(k: Kernel, fd: int, b: Buf, delim: char, k': Kernel, partial: string)
    requires ValidBuf(b) && IsOpen(k, fd) && FirstLine(b, delim) > 0
    requires IsOpen(k', fd) && k' == WithChannel(k, fd, ChannelOf(k', fd))
    requires NetIo.Sends(ChannelOf(k, fd), ChannelOf(k', fd), partial)
    requires partial <= b.mem[..FirstLine(b, delim)] && partial != b.mem[..FirstLine(b, delim)]
    ensures DrainEffect(k, fd, b, DrainResult(false, k', b), delim, "", partial)
  {
    assert Contents(b)[..FirstLine(b, delim)] == b.mem[..FirstLine(b, delim)];
    assert "" + partial == partial && "" + Contents(b) == Contents(b);
  }

  lemma {:induction false} DrainEffectFirst(k: Kernel, fd: int, b: Buf, delim: char, k1: Kernel, r: DrainResult,
                                            full: string, partial: string)
    requires ValidBuf(b) && ValidBuf(r.buf) && IsOpen(k, fd) && FirstLine(b, delim) > 0
    requires IsOpen(k1, fd) && k1 == WithChannel(k, fd, ChannelOf(k1, fd))
    requires NetIo.Sends(ChannelOf(k, fd), ChannelOf(k1, fd), b.mem[..FirstLine(b, delim)])
    requires DrainEffect(k1, fd, Compacted(b, FirstLine(b, delim)), r, delim, full, partial)
    ensures DrainEffect(k, fd, b, r, delim, b.mem[..FirstLine(b, delim)] + full, partial)
  {
    DrainSendsFirst(ChannelOf(k, fd), ChannelOf(k1, fd), ChannelOf(r.kernel, fd), b, r.buf, r.ok, delim, full, partial);
    WithChannelTwice(k, fd, ChannelOf(k1, fd), ChannelOf(r.kernel, fd));
  }

  lemma {:induction false} DrainAppends(k: Kernel, fd: int, b: Buf, delim: char) returns (full: string, partial: string)
    requires ValidBuf(b) && IsOpen(k, fd)
    ensures DrainEffect(k, fd, b, DrainTo(k, fd, b, delim), delim, full, partial)
    decreases b.size
  {
    var n := FirstLine(b, delim);
    full, partial := "", "";
    if n == 0 {
      DrainEffectNone(k, fd, b, delim);
    } else {
      var first := b.mem[..n];
      partial := NetIo.WriteAllAppends(k, fd, first);
      var w := NetIo.WriteAll(k, fd, first);
      if w.0 {
        full, partial := DrainAppends(w.1, fd, Compacted(b, n), delim);
        DrainEffectFirst(k, fd, b, delim, w.1, DrainTo(k, fd, b, delim), full, partial);
        full := first + full;
      } else {
        DrainEffectFailed(k, fd, b, delim, w.1, partial);
      }
    }
  }

  lemma WithChannelTwice(k: Kernel, fd: int, c1: Channel, c2: Channel)
    requires IsOpen(k, fd)
    ensures WithChannel(WithChannel(k, fd, c1), fd, c2) == WithChannel(k, fd, c2)
  {
    var id := k.table[fd];
    assert k.channels[id := c1][id := c2] == k.channels[id := c2];
  }

  // ----- the class -----

  class Buffer {
    const mem: array<char>
    var size_: int

    ghost predicate Valid()
      reads this, mem
    {
      mem.Length == BUFFER_SIZE && 0 <= size_ <= BUFFER_SIZE
    }

    ghost function Value(): (b: Buf)
      requires Valid()
      reads this, mem
      ensures ValidBuf(b)
    {
      Buf(mem[..], size_)
    }

    constructor ()
      ensures Valid() && fresh(mem) && Contents(Value()) == ""
    {
      mem := new char[BUFFER_SIZE];
      size_ := 0;
    }

    /** The same, for memory that happens to hold `memory`: a new buffer's characters are indeterminate. */
    constructor Holding(memory: string)
      requires |memory| == BUFFER_SIZE
      ensures Valid() && fresh(mem) && Value() == Buf(memory, 0)
    {
      mem := new char[BUFFER_SIZE](i requires 0 <= i < BUFFER_SIZE => memory[i]);
      size_ := 0;
      new;
      assert mem[..] == memory;
    }

    /** The copy constructor copies the used part only. */
    constructor Copy(other: Buffer)
      requires other.Valid()
      ensures Valid() && fresh(mem) && Contents(Value()) == Contents(other.Value())
    {
      mem := new char[BUFFER_SIZE];
      size_ := other.size_;
      new;
      CopyMemory(other);
    }

    /** The move constructor leaves the other buffer empty. */
    constructor Move(other: Buffer)
      requires other.Valid()
      modifies other
      ensures Valid() && fresh(mem) && other.Valid()
      ensures Contents(Value()) == old(Contents(other.Value())) && Contents(other.Value()) == ""
    {
      mem := new char[BUFFER_SIZE];
      size_ := other.size_;
      new;
      CopyMemory(other);
      other.size_ := 0;
    }

    /** `memcpy` of the used part of another buffer. */
    method CopyMemory(other: Buffer)
      requires mem != other.mem && mem.Length == BUFFER_SIZE && other.Valid()
      modifies mem
      ensures mem[..] == other.mem[..other.size_] + old(mem[other.size_..])
    {
      var n := other.size_;
      ghost var before := mem[..];
      for i := 0 to n
        invariant forall j | 0 <= j < i :: mem[j] == other.mem[j]
        invariant forall j | i <= j < mem.Length :: mem[j] == before[j]
      {
        mem[i] := other.mem[i];
      }
      assert mem[..] == other.mem[..n] + before[n..];
    }

    method CopyAssign(other: Buffer)
      requires Valid() && other.Valid() && (this != other ==> mem != other.mem)
      modifies this, mem
      ensures Valid() && Contents(Value()) == old(Contents(other.Value()))
      ensures this != other ==> Contents(other.Value()) == old(Contents(other.Value()))
    {
      if this != other {
        CopyMemory(other);
        size_ := other.size_;
      }
    }

    /** Moving a buffer onto itself changes nothing; otherwise the other buffer is left empty. */
    method MoveAssign(other: Buffer)
      requires Valid() && other.Valid() && (this != other ==> mem != other.mem)
      modifies this, mem, other
      ensures Valid() && other.Valid()
      ensures Contents(Value()) == old(Contents(other.Value()))
      ensures this != other ==> Contents(other.Value()) == ""
    {
      if this != other {
        CopyMemory(other);
        size_ := other.size_;
        other.size_ := 0;
      }
    }

    method Clear()
      requires Valid()
      modifies this
      ensures Valid() && Contents(Value()) == ""
    {
      size_ := 0;
    }

    /**
      Nothing stops a negative count: the size then shrinks, and the buffer stays valid if and only
      if it does not shrink below zero.
     */
    method IncreaseSize(n: int) returns (r: Result<()>)
      requires Valid()
      modifies this
      ensures r.Thrown? <==> n > old(FreeSpace(Value()))
      ensures r.Thrown? ==> size_ == old(size_)
      ensures r.Returned? ==> size_ == old(size_) + n
      ensures Valid() <==> old(size_) + n >= 0
    {
      if n > BUFFER_SIZE - size_ {
        return Thrown;
      }
      size_ := size_ + n;
      r := Returned(());
    }

    /** Appends the first len characters, or throws and changes nothing. */
    method Append(other: string, len: int) returns (r: Result<()>)
      requires Valid() && len <= |other|
      modifies this, mem
      ensures Valid()
      ensures r.Returned? <==> 0 <= len <= old(FreeSpace(Value()))
      ensures r.Returned? ==> Contents(Value()) == old(Contents(Value())) + other[..len]
      ensures r.Thrown? ==> Value() == old(Value())
    {
      if len < 0 {
        return Thrown;
      }
      if len > BUFFER_SIZE - size_ {
        return Thrown;
      }
      ghost var before := mem[..];
      for i := 0 to len
        invariant size_ == old(size_)
        invariant mem[..] == before[..size_] + other[..i] + before[size_ + i..]
      {
        mem[size_ + i] := other[i];
        assert other[..i + 1] == other[..i] + [other[i]];
      }
      size_ := size_ + len;
      r := Returned(());
    }

    /** `memmove` to a lower address: source and target overlap, and copying upward is safe. */
    method MoveDown(len: nat)
      requires Valid() && len <= size_
      modifies mem
      ensures mem[..] == Compacted(old(Value()), len).mem
    {
      ghost var before := mem[..];
      var count := size_ - len;
      for i := 0 to count
        invariant forall j | 0 <= j < i :: mem[j] == before[len + j]
        invariant forall j | i <= j < mem.Length :: mem[j] == before[j]
      {
        mem[i] := mem[len + i];
      }
      assert mem[..] == before[len..size_] + before[count..];
    }

    /** Drops len characters from the front; asking for more than there are empties the buffer. */
    method Compact(len: int) returns (r: Result<()>)
      requires Valid()
      modifies this, mem
      ensures Valid() && (r.Thrown? <==> len < 0)
      ensures len < 0 ==> Value() == old(Value())
      ensures 0 <= len <= old(size_) ==> Value() == Compacted(old(Value()), len)
      ensures len > old(size_) ==> Contents(Value()) == ""
    {
      if len < 0 {
        return Thrown;
      }
      r := Returned(());
      if len > size_ {
        size_ := 0;
        return;
      }
      MoveDown(len);
      size_ := size_ - len;
    }

    /** The index of the first delimiter, or -1. */
    method FindDelim(delim: char) returns (i: int)
      requires Valid()
      ensures i == FirstLine(Value(), delim) - 1
    {
      i := 0;
      while i < size_
        invariant 0 <= i <= size_
        invariant FirstLine(Value(), delim) == Lines.FirstLengthFrom(Contents(Value()), delim, i)
      {
        if mem[i] == delim {
          return;
        }
        i := i + 1;
      }
      i := -1;
    }

    /** The first line, taken out of the buffer; "" when no line is complete. */
    method ConsumeOnce(delim: char) returns (line: string)
      requires Valid()
      modifies this, mem
      ensures Valid()
      ensures line == old(Contents(Value())[..FirstLine(Value(), delim)])
      ensures Value() == Compacted(old(Value()), old(FirstLine(Value(), delim)))
    {
      ghost var b := Value();
      var delimIdx := FindDelim(delim);
      if delimIdx < 0 {
        CompactedNothing(b);
        assert Contents(b)[..0] == "";
        return "";
      }
      var len := delimIdx + 1;
      line := mem[..len];
      var compacted := Compact(len);
    }

    /** All complete lines, whatever pieces they arrived in; the unfinished line stays. */
    method ConsumeFull(delim: char) returns (result: string)
      requires Valid()
      modifies this, mem
      ensures Valid()
      ensures result == Lines.Complete(old(Contents(Value())), delim)
      ensures Value() == Drained(old(Value()), delim)
      ensures Contents(Value()) == Lines.Rest(old(Contents(Value())), delim)
    {
      ghost var lines, drained := Lines.Complete(Contents(Value()), delim), Drained(Value(), delim);
      DrainedContents(Value(), delim);
      result := "";
      while true
        invariant Valid()
        invariant lines == result + Lines.Complete(Contents(Value()), delim)
        invariant drained == Drained(Value(), delim)
        decreases size_
      {
        ghost var b := Value();
        ConsumedLine(b, delim, result);
        var chunk := ConsumeOnce(delim);
        if chunk == "" {
          break;
        }
        result := result + chunk;
      }
    }

    /** Writes the first line, if there is one, and takes it out only if the write succeeded. */
    method ConsumeOnceTo(os: OS, fd: int, delim: char) returns (r: Result<()>)
      requires Valid()
      modifies this, mem, os
      ensures Valid()
      ensures old(FirstLine(Value(), delim)) == 0 ==> r.Returned? && os.k == old(os.k) && Value() == old(Value())
      ensures old(FirstLine(Value(), delim)) > 0 ==>
        (r.Returned?, os.k) == NetIo.WriteAll(old(os.k), fd, old(Contents(Value())[..FirstLine(Value(), delim)])) &&
        Value() == if r.Returned? then Compacted(old(Value()), old(FirstLine(Value(), delim))) else old(Value())
    {
      r := Returned(());
      var delimIdx := FindDelim(delim);
      if delimIdx >= 0 {
        assert mem[..delimIdx + 1] == Contents(Value())[..delimIdx + 1];
        r := NetIo.WriteFull(os, fd, mem[..delimIdx + 1]);
        if r.Returned? {
          var compacted := Compact(delimIdx + 1);
        }
      }
    }

    method ConsumeFullTo(os: OS, fd: int, delim: char) returns (r: Result<()>)
      requires Valid()
      modifies this, mem, os
      ensures Valid()
      ensures DrainResult(r.Returned?, os.k, Value()) == DrainTo(old(os.k), fd, old(Value()), delim)
    {
      r := Returned(());
      ghost var whole := DrainTo(os.k, fd, Value(), delim);
      var delimIdx := FindDelim(delim);
      while delimIdx >= 0
        invariant Valid() && r.Returned?
        invariant delimIdx == FirstLine(Value(), delim) - 1
        invariant DrainTo(os.k, fd, Value(), delim) == whole
        decreases size_
      {
        r := NetIo.WriteFull(os, fd, mem[..delimIdx + 1]);
        if r.Thrown? {
          return;
        }
        var compacted := Compact(delimIdx + 1);
        delimIdx := FindDelim(delim);
      }
    }
  }

  /** Taking one line out splits what the complete lines are, and the rest is drained the same way. */
  lemma {:induction false} ConsumedLine(b: Buf, delim: char, before: string)
    requires ValidBuf(b)
    ensures FirstLine(b, delim) == 0 ==>
              before + Lines.Complete(Contents(b), delim) == before && Drained(b, delim) == b && Compacted(b, 0) == b
    ensures FirstLine(b, delim) > 0 ==>
              before + Lines.Complete(Contents(b), delim)
              == before + Contents(b)[..FirstLine(b, delim)]
                + Lines.Complete(Contents(Compacted(b, FirstLine(b, delim))), delim)
              && Drained(Compacted(b, FirstLine(b, delim)), delim) == Drained(b, delim)
  {
    if FirstLine(b, delim) == 0 {
      Lines.CompleteNone(Contents(b), delim);
    } else {
      Lines.CompleteFirst(Contents(b), delim);
    }
  }
}
