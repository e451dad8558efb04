/**
 The ranged reader under the blob migration (cmd/blobmigrate/main.go): a buffered
 stream over GetRange that must be "the whole object", and the byte comparison
 that guards it.
 */
module BlobStorage {

  type byte = bv8
  type Bytes = seq<byte>
  type Key = string

  const READ_CHUNK := 4 * 1024 * 1024
  const COPY_BUFFER := 256 * 1024

  datatype RangeResult = Range(data: Bytes, total: nat) | RangeError

  /** A permanent backend: content by object key.  unsynced are the files that the system has not
      written back yet; the program neither knows them nor waits for them. */
  class Disk {
    var objects: map<Key, Bytes>
    ghost var unsynced: set<Key>

    constructor (objects: map<Key, Bytes>)
      ensures this.objects == objects && unsynced == {}
    {
      this.objects, unsynced := objects, {};
    }

    /** GetRange of both backends; fault says that this call fails outright. */
    function GetRange(key: Key, offset: int, limit: int, fault: bool): RangeResult
      reads this
    {
      if fault || key !in objects then RangeError
      else
        var content := objects[key];
        var start := if offset < 0 then 0 else offset;
        if start >= |content| then Range([], |content|)
        else
          var rest := |content| - start;
          var n := if 0 < limit < rest then limit else rest;
          Range(content[start..start + n], |content|)
    }
  }

  datatype Status = Ok | EOF | Failed

  class RangeReader {
    const backend: Disk
    const key: Key
    const total: int
    var offset: int
    var buffer: Bytes

    /** The buffer always equals the next bytes of the object. */
    ghost predicate Valid()
      reads this, backend
    {
      && 0 <= offset
      && (offset == 0 || offset <= total)
      && (buffer != [] ==> Whole() && offset + |buffer| <= total && buffer == backend.objects[key][offset..offset + |buffer|])
    }

    /** The object is there and has the expected size. */
    ghost predicate Whole()
      reads this, backend
    {
      key in backend.objects && |backend.objects[key]| == total
    }

    constructor (backend: Disk, key: Key, total: int)
      ensures Valid() && this.backend == backend && this.key == key && this.total == total
      ensures offset == 0 && buffer == []
    {
      this.backend, this.key, this.total := backend, key, total;
      offset, buffer := 0, [];
    }

    /** Refills an empty buffer before the end of the object, or fails without moving. */
    method Fill(fault: bool) returns (ok: bool)
      requires Valid() && buffer == [] && offset < total
      modifies this`buffer
      ensures Valid() && (ok <==> !fault && Whole()) && (ok <==> buffer != [])
    {
      var limit := READ_CHUNK;
      var remaining := total - offset;
      if remaining < limit {
        limit := remaining;
      }
      var r := backend.GetRange(key, offset, limit, fault);
      if r.RangeError? || r.total != total || |r.data| != limit {
        return false;
      }
      buffer := r.data;
      return true;
    }

    /** Hands out the front of a filled buffer. */
    method Take(p: array<byte>) returns (n: nat)
      requires Valid() && buffer != [] && p.Length > 0
      modifies this, p
      ensures Valid() && offset == old(offset) + n && 0 < n <= p.Length && Whole() && offset <= total
      ensures p[..n] == backend.objects[key][old(offset)..offset] && p[n..] == old(p[n..])
    {
      n := if p.Length < |buffer| then p.Length else |buffer|;
      ghost var content := backend.objects[key];
      assert buffer[..n] == content[offset..offset + n];
      assert buffer[n..] == content[offset + n..offset + |buffer|];
      CopyInto(p, buffer[..n]);
      buffer := buffer[n..];
      offset := offset + n;
    }

    /** One Read.  It ends the stream exactly at the total size, makes progress whenever it
        succeeds on a non-empty buffer, and hands out exactly the bytes between the offsets. */
    method Read(p: array<byte>, fault: bool) returns (n: nat, status: Status)
      requires Valid()
      modifies this, p
      ensures Valid() && offset == old(offset) + n && n <= p.Length
      ensures status == EOF <==> p.Length > 0 && old(offset) >= total
      ensures status == Failed <==> p.Length > 0 && old(offset) < total && old(buffer) == [] && (fault || !Whole())
      ensures status == Ok && p.Length > 0 ==> n > 0
      ensures n > 0 ==> status == Ok && Whole() && offset <= total && p[..n] == backend.objects[key][old(offset)..offset]
      ensures p[n..] == old(p[n..])
    {
      if p.Length == 0 {
        return 0, Ok;
      }
      if |buffer| == 0 {
        if offset >= total {
          return 0, EOF;
        }
        var ok := Fill(fault);
        if !ok {
          return 0, Failed;
        }
      }
      n := Take(p);
      return n, Ok;
    }
  }

  /** Go's copy into the front of a slice. */
  method CopyInto(p: array<byte>, data: Bytes)
    requires |data| <= p.Length
    modifies p
    ensures p[..|data|] == data && p[|data|..] == old(p[|data|..])
  {
    forall i | 0 <= i < |data| {
      p[i] := data[i];
    }
  }

  ghost function NonEmpty(sizes: seq<nat>): nat {
    if sizes == [] then 0
    else NonEmpty(sizes[..|sizes| - 1]) + (if sizes[|sizes| - 1] > 0 then 1 else 0)
  }

  /** Whatever sizes a consumer asks for, what it was given so far is exactly the object's
      prefix up to the reader's offset; the stream ends exactly when that is everything. */
  method ReadSequence(reader: RangeReader, sizes: seq<nat>, faults: seq<bool>) returns (out: Bytes, status: Status)
    requires reader.Valid() && reader.offset == 0 && reader.buffer == [] && |faults| == |sizes|
    modifies reader
    ensures reader.Valid() && reader.offset == |out|
    ensures out != [] ==> reader.Whole() && out == reader.backend.objects[reader.key][..|out|]
    ensures status == EOF ==> |out| == (if reader.total < 0 then 0 else reader.total)
    ensures status == Ok ==> |out| >= NonEmpty(sizes)
    ensures status == Failed ==> |out| < reader.total
  {
    out, status := [], Ok;
    var i := 0;
    while i < |sizes|
      invariant 0 <= i <= |sizes| && reader.Valid() && reader.offset == |out|
      invariant out != [] ==> reader.Whole() && out == reader.backend.objects[reader.key][..|out|]
      invariant |out| >= NonEmpty(sizes[..i])
    {
      var p := new byte[sizes[i]];
      var n, s := reader.Read(p, faults[i]);
      if s != Ok {
        return out, s;
      }
      ghost var content := if n > 0 then reader.backend.objects[reader.key] else [];
      assert n > 0 ==> content[..|out|] + content[|out|..|out| + n] == content[..|out| + n];
      out := out + p[..n];
      assert sizes[..i + 1][..i] == sizes[..i];
      i := i + 1;
    }
    assert sizes[..i] == sizes;
  }

  /** The copy loop that drains a reader into a writer (internal/app/files/blobfs.go,
      copyWithContext): it yields the whole object or fails, never a part of it.  For a total
      of zero the backend is never asked. */
  method CopyAll(reader: RangeReader, faults: nat -> bool) returns (out: Bytes, ok: bool)
    requires reader.Valid() && reader.offset == 0 && reader.buffer == []
    modifies reader
    ensures ok ==> |out| == (if reader.total < 0 then 0 else reader.total)
    ensures ok && reader.total > 0 ==> reader.Whole() && out == reader.backend.objects[reader.key]
    ensures !ok ==> reader.total > 0 && (!reader.Whole() || exists i :: faults(i))
  {
    out, ok := [], true;
    while true
      invariant reader.Valid() && reader.offset == |out|
      invariant out != [] ==> reader.Whole() && out == reader.backend.objects[reader.key][..|out|]
      decreases reader.total - reader.offset
    {
      var buf := new byte[COPY_BUFFER];
      var n, s := reader.Read(buf, faults(|out|));
      if s == EOF {
        return out, true;
      }
      if s == Failed {
        return out, false;
      }
      ghost var content := reader.backend.objects[reader.key];
      assert content[..|out|] + content[|out|..|out| + n] == content[..|out| + n];
      out := out + buf[..n];
    }
  }

  lemma OrXorZero(d: byte, x: byte, y: byte)
    ensures (d | (x ^ y)) == 0 <==> d == 0 && x == y
  {
  }

  /** The accumulating comparison decides equality. */
  method EqualBytes(a: Bytes, b: Bytes) returns (equal: bool)
    ensures equal <==> a == b
  {
    if |a| != |b| {
      return false;
    }
    var different: byte := 0;
    var i := 0;
    while i < |a|
      invariant 0 <= i <= |a|
      invariant different == 0 <==> a[..i] == b[..i]
    {
      OrXorZero(different, a[i], b[i]);
      assert a[..i + 1] == a[..i] + [a[i]] && b[..i + 1] == b[..i] + [b[i]];
      different := different | (a[i] ^ b[i]);
      i := i + 1;
    }
    return different == 0;
  }
}
