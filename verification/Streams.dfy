/** IStream: a file read through a buffer that is refilled when it runs out. */
module Streams {
  /** `ISTREAM_CACHE_BUFFER_SIZE`. */
  const CACHE: nat := 4096

  class IStream {
    const buffer: array<char>
    var bufferLen: nat
    var bufferIt: nat
    /** What the file still has to give. */
    var file: string

    ghost predicate Valid()
      reads this, buffer
    {
      && bufferIt <= bufferLen <= buffer.Length == CACHE
      && (bufferIt == bufferLen ==> file == "")
    }

    /** All that is still to be read. */
    ghost function Rest(): string
      requires Valid()
      reads this, buffer
    {
      buffer[bufferIt..bufferLen] + file
    }

    /** `pal_readfile`: as many bytes as it likes, but at least one while there are any. */
    method ReadFile() returns (size: nat)
      requires buffer.Length == CACHE
      modifies this`file, buffer
      ensures size == 0 <==> old(file) == ""
      ensures size <= CACHE && size <= |old(file)| && file == old(file)[size..]
      ensures buffer[..size] == old(file)[..size]
    {
      if file == "" {
        return 0;
      }
      size :| 1 <= size <= CACHE && size <= |file|;
      forall i | 0 <= i < size {
        buffer[i] := file[i];
      }
      file := file[size..];
    }

    /** `istream__refill_buffer`. */
    method Refill() returns (ok: bool)
      requires buffer.Length == CACHE && bufferIt == bufferLen <= CACHE
      modifies this`file, this`bufferLen, this`bufferIt, buffer
      ensures Valid() && Rest() == old(file) && (ok <==> old(file) != "")
    {
      ghost var all := file;
      var size := ReadFile();
      if size == 0 {
        ok := false;
      } else {
        bufferLen, bufferIt := size, 0;
        ok := true;
        assert all == all[..size] + all[size..];
      }
    }

    /** `istream_init_from_filehandle` on a valid handle. */
    constructor (contents: string)
      ensures Valid() && Rest() == contents && fresh(buffer)
    {
      buffer := new char[CACHE];
      bufferLen, bufferIt, file := 0, 0, contents;
      new;
      var _ := Refill();
    }

    /** `istream_peek_byte`; without a byte the caller's variable keeps its value. */
    method PeekByte(was: char) returns (ok: bool, c: char)
      requires Valid()
      ensures ok <==> Rest() != ""
      ensures c == if Rest() != "" then Rest()[0] else was
    {
      if bufferIt < bufferLen {
        ok, c := true, buffer[bufferIt];
      } else {
        ok, c := false, was;
      }
    }

    /** `istream__advance_read`, with `istream__advance` in it. */
    method AdvanceRead() returns (ok: bool)
      requires Valid() && Rest() != ""
      modifies this`file, this`bufferLen, this`bufferIt, buffer
      ensures Valid() && Rest() == old(Rest())[1..] && (ok <==> Rest() != "")
    {
      ok := true;
      bufferIt := bufferIt + 1;
      if bufferIt == bufferLen {
        ok := Refill();
      }
    }

    /** `istream_read_next_byte`.  The flag of the last byte is already false. */
    method ReadNextByte(was: char) returns (ok: bool, c: char)
      requires Valid()
      modifies this`file, this`bufferLen, this`bufferIt, buffer
      ensures Valid()
      ensures old(Rest()) == "" ==> !ok && c == was && Rest() == ""
      ensures old(Rest()) != "" ==> c == old(Rest())[0] && Rest() == old(Rest())[1..] && (ok <==> Rest() != "")
    {
      ok, c := PeekByte(was);
      if ok {
        ok := AdvanceRead();
      }
    }
  }

  lemma Regroup(out: string, c: char, rest: string)
    requires rest != ""
    ensures out + [c] + rest == out + [c] + [rest[0]] + rest[1..]
  {
  }

  /** The documented reading loop: whatever sizes the refills have, it misses the last byte and no other. */
  method ReadAllAsDocumented(s: IStream) returns (out: string)
    requires s.Valid()
    modifies s, s.buffer
    ensures s.Valid() && s.Rest() == ""
    ensures old(s.Rest()) == "" ==> out == ""
    ensures old(s.Rest()) != "" ==> out + [old(s.Rest())[|old(s.Rest())| - 1]] == old(s.Rest())
  {
    hide IStream.Valid, IStream.Rest;
    out := "";
    ghost var all := s.Rest();
    var ok, c := s.ReadNextByte('\0');
    while ok
      invariant s.Valid()
      invariant ok ==> out + [c] + s.Rest() == all && s.Rest() != ""
      invariant !ok ==> s.Rest() == "" && (all == "" ==> out == "") && (all != "" ==> out + [c] == all)
      decreases ok, |s.Rest()|
    {
      Regroup(out, c, s.Rest());
      out := out + [c];
      ok, c := s.ReadNextByte(c);
    }
  }
}
