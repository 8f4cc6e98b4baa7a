/** The mutable byte cursors: a writer that appends and a reader that never passes its end. */
module Cursors {
  import opened Base
  import opened ByteIO

  class ByteWriter {
    var buffer: Bytes

    constructor ()
      ensures buffer == []
    {
      buffer := [];
    }

    method PutU32(value: U32)
      modifies this
      ensures buffer == old(buffer) + EncU32(value)
    {
      PutLittleEndian(value, 4);
    }

    method PutU64(value: U64)
      modifies this
      ensures buffer == old(buffer) + EncU64(value)
    {
      PutLittleEndian(value, 8);
    }

    /** The shift-and-mask loop of both integer writers. */
    method PutLittleEndian(value: nat, width: nat)
      modifies this
      ensures buffer == old(buffer) + LittleEndian(value, width)
    {
      for i := 0 to width
        invariant buffer == old(buffer) + LittleEndian(value, width)[..i]
      {
        LittleEndianAt(value, width, i);
        buffer := buffer + [value / Pow256(i) % 256];
      }
    }

    method PutBytes(bytes: Bytes)
      modifies this
      ensures buffer == old(buffer) + bytes
    {
      buffer := buffer + bytes;
    }

    method PutVarBytes(bytes: Bytes)
      modifies this
      ensures buffer == old(buffer) + EncVarBytes(bytes)
    {
      PutU32(|bytes| % TWO_32);
      PutBytes(bytes);
    }
  }

  /** A reader method did what the decoder `spec` says: same value or error, same bytes left. */
  ghost predicate Reads<T>(r: Result<T>, rest: Bytes, spec: Decoded<T>) {
    match spec
    case Ok((v, s)) => r == Ok(v) && rest == s
    case Err(c) => r == Err(c)
  }

  class ByteReader {
    const data: Bytes
    var pos: nat

    ghost predicate Valid()
      reads this
    {
      pos <= |data|
    }

    ghost function Rest(): Bytes
      reads this
      requires Valid()
    {
      data[pos..]
    }

    constructor (bytes: Bytes)
      ensures Valid() && data == bytes && Rest() == bytes
    {
      data, pos := bytes, 0;
    }

    method GetU32() returns (r: Result<U32>)
      requires Valid()
      modifies this
      ensures Valid() && Reads(r, Rest(), DecU32(old(Rest())))
      ensures r.Err? ==> pos == old(pos)
    {
      if 4 > |data| - pos {
        return Err(ParseError);
      }
      Powers();
      var value := GetLittleEndian(4);
      r := Ok(value);
    }

    method GetU64() returns (r: Result<U64>)
      requires Valid()
      modifies this
      ensures Valid() && Reads(r, Rest(), DecU64(old(Rest())))
      ensures r.Err? ==> pos == old(pos)
    {
      if 8 > |data| - pos {
        return Err(ParseError);
      }
      Powers();
      var value := GetLittleEndian(8);
      r := Ok(value);
    }

    /** The shift-and-or loop of both integer readers; each shifted byte lies above the bits
        read so far, so or is addition. */
    method GetLittleEndian(width: nat) returns (value: nat)
      requires Valid() && width <= |Rest()|
      modifies this
      ensures Valid() && pos == old(pos) + width
      ensures value == Value(old(Rest())[..width]) < Pow256(width)
    {
      value := 0;
      ghost var rest := Rest();
      for i := 0 to width
        invariant pos == old(pos) && value == Value(rest[..i]) < Pow256(i)
      {
        ValueAppend(rest[..i], rest[i]);
        assert rest[..i + 1] == rest[..i] + [rest[i]];
        ValueBound(rest[..i + 1]);
        value := value + data[pos + i] * Pow256(i);
      }
      pos := pos + width;
    }

    method GetBytes(count: nat) returns (r: Result<Bytes>)
      requires Valid()
      modifies this
      ensures Valid() && Reads(r, Rest(), DecBytes(old(Rest()), count))
      ensures r.Err? ==> pos == old(pos)
    {
      if count > |data| - pos {
        return Err(ParseError);
      }
      assert data[pos..pos + count] == Rest()[..count];
      r := Ok(data[pos..pos + count]);
      pos := pos + count;
    }

    method GetHash() returns (r: Result<Hash>)
      requires Valid()
      modifies this
      ensures Valid() && Reads(r, Rest(), DecHash(old(Rest())))
      ensures r.Err? ==> pos == old(pos)
    {
      if 32 > |data| - pos {
        return Err(ParseError);
      }
      assert data[pos..pos + 32] == Rest()[..32];
      r := Ok(data[pos..pos + 32]);
      pos := pos + 32;
    }

    method GetLength(max: U32) returns (r: Result<U32>)
      requires Valid()
      modifies this
      ensures Valid() && Reads(r, Rest(), DecLength(old(Rest()), max))
    {
      var length :- GetU32();
      if length > max {
        return Err(ResourceLimitExceeded);
      }
      r := Ok(length);
    }

    method GetVarBytes(max: U32) returns (r: Result<Bytes>)
      requires Valid()
      modifies this
      ensures Valid() && Reads(r, Rest(), DecVarBytes(old(Rest()), max))
    {
      var length :- GetLength(max);
      r := GetBytes(length);
    }

    method ExpectEnd() returns (r: Result<()>)
      requires Valid()
      ensures r == if Rest() == [] then DONE else Err(ParseError)
    {
      r := if pos != |data| then Err(ParseError) else DONE;
    }
  }
}
