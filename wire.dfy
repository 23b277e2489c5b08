/** The SSH binary encodings the container and GSSAPI code pack and unpack
    (section 5 of RFC 4251): uint32 in network order and "string" as a
    uint32 length followed by that many bytes. The packer itself lives in
    buffer.c, which is not part of this model; the functions here are what
    the core relies on it to do. */
module Wire {
  import opened Bytes

  const STRING_LIMIT: nat := 0x1_0000_0000

  /** An SSH "string": four length bytes, then the bytes themselves. */
  function SshString(s: seq<byte>): (r: seq<byte>)
    requires |s| < STRING_LIMIT
    ensures |r| == 4 + |s| && r[4..] == s
  {
    U32ToBE(|s|) + s
  }

  /** Reads one uint32; fails, consuming nothing, when fewer than four bytes remain. */
  function GetU32(s: seq<byte>): (r: Option<(uint32, seq<byte>)>)
    ensures r.Some? <==> |s| >= 4
    ensures r.Some? ==> r.value.1 == s[4..] && U32ToBE(r.value.0) == s[..4]
  {
    if |s| < 4 then None
    else
      NatToBEOfBEToNat(s[..4]);
      Some((BEToU32(s[..4]), s[4..]))
  }

  /** Reads exactly n raw bytes (the "P" field of the packer). */
  function GetBytes(s: seq<byte>, n: nat): (r: Option<(seq<byte>, seq<byte>)>)
    ensures r.Some? <==> n <= |s|
    ensures r.Some? ==> r.value.0 + r.value.1 == s && |r.value.0| == n
  {
    if n <= |s| then Some((s[..n], s[n..])) else None
  }

  /** Reads one SSH string as a whole field of an unpack: length, then body. */
  function GetString(s: seq<byte>): (r: Option<(seq<byte>, seq<byte>)>)
    ensures r.Some? ==> |r.value.0| < STRING_LIMIT && SshString(r.value.0) + r.value.1 == s
  {
    match GetU32(s)
    case None => None
    case Some((n, rest)) =>
      match GetBytes(rest, n)
      case None => None
      case Some((body, rest')) =>
        assert s == s[..4] + rest;
        Some((body, rest'))
  }

  lemma GetU32OfEncoding(x: uint32, rest: seq<byte>)
    ensures GetU32(U32ToBE(x) + rest) == Some((x, rest))
  {
    var s := U32ToBE(x) + rest;
    assert s[..4] == U32ToBE(x);
    assert s[4..] == rest;
    U32RoundTrip(x);
  }

  /** Unpacking a packed string gives back the string and what followed it. */
  lemma GetStringOfSshString(body: seq<byte>, rest: seq<byte>)
    requires |body| < STRING_LIMIT
    ensures GetString(SshString(body) + rest) == Some((body, rest))
  {
    var s := SshString(body) + rest;
    assert s == U32ToBE(|body|) + (body + rest);
    GetU32OfEncoding(|body|, body + rest);
    assert GetBytes(body + rest, |body|) == Some((body, rest));
  }

  /** The remainder after ssh_buffer_get_ssh_string: the four length bytes are
      consumed even when the body turns out to be longer than what is left. */
  function AfterGetSshString(s: seq<byte>): (r: seq<byte>)
    ensures |r| <= |s|
    ensures GetString(s).Some? ==> r == GetString(s).value.1
  {
    match GetU32(s)
    case None => s
    case Some((n, rest)) => if n <= |rest| then rest[n..] else rest
  }

  /** The bytes a C string function sees: everything before the first NUL. */
  function CBytes(b: seq<byte>): (r: seq<byte>)
    ensures |r| <= |b| && r == b[..|r|]
    ensures forall i :: 0 <= i < |r| ==> r[i] != 0
    ensures |r| < |b| ==> b[|r|] == 0
  {
    if b == [] || b[0] == 0 then [] else [b[0]] + CBytes(b[1..])
  }

  /** The C string a "s" field yields: the bytes before the first NUL, as characters. */
  function CName(b: seq<byte>): (r: string)
    ensures |r| <= |b|
    ensures forall i :: 0 <= i < |r| ==> r[i] as int == b[i] && b[i] != 0
    ensures |r| < |b| ==> b[|r|] == 0
  {
    if b == [] || b[0] == 0 then "" else [b[0] as char] + CName(b[1..])
  }

  lemma {:induction false} CNameOfNulFree(b: seq<byte>)
    requires forall i :: 0 <= i < |b| ==> b[i] != 0
    ensures CName(b) == BytesToChars(b)
  {
    if b != [] {
      CNameOfNulFree(b[1..]);
    }
  }

  /** An ssh_buffer: the bytes between its read position and its end. Reads
      consume from the front, writes append at the back. */
  class Buffer {
    var data: seq<byte>

    constructor ()
      ensures data == []
    {
      data := [];
    }

    function Len(): nat
      reads this
    {
      |data|
    }

    method AddData(d: seq<byte>)
      modifies this
      ensures data == old(data) + d
    {
      data := data + d;
    }

    method AddU8(b: byte)
      modifies this
      ensures data == old(data) + [b]
    {
      data := data + [b];
    }

    method AddU32(x: uint32)
      modifies this
      ensures data == old(data) + U32ToBE(x)
    {
      data := data + U32ToBE(x);
    }

    method AddSshString(s: seq<byte>)
      requires |s| < STRING_LIMIT
      modifies this
      ensures data == old(data) + SshString(s)
    {
      data := data + SshString(s);
    }

    method TakeU8() returns (ok: bool, b: byte)
      modifies this
      ensures ok <==> old(data) != []
      ensures ok ==> b == old(data)[0] && data == old(data)[1..]
      ensures !ok ==> data == old(data)
    {
      if data == [] {
        ok, b := false, 0;
      } else {
        ok, b := true, data[0];
        data := data[1..];
      }
    }

    method TakeU32() returns (ok: bool, x: uint32)
      modifies this
      ensures ok <==> GetU32(old(data)).Some?
      ensures ok ==> (x, data) == GetU32(old(data)).value
      ensures !ok ==> data == old(data)
    {
      var r := GetU32(data);
      if r.Some? {
        ok, x := true, r.value.0;
        data := r.value.1;
      } else {
        ok, x := false, 0;
      }
    }

    method TakeSshString() returns (s: Option<seq<byte>>)
      modifies this
      ensures s == (if GetString(old(data)).Some? then Some(GetString(old(data)).value.0) else None)
      ensures data == AfterGetSshString(old(data))
    {
      var r := GetString(data);
      s := if r.Some? then Some(r.value.0) else None;
      data := AfterGetSshString(data);
    }
  }
}
