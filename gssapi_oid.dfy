/** The SSH wire form of a GSSAPI mechanism OID (section 3.2 of RFC 4462): the
    ASN.1 tag, the number of element bytes as one byte, then the elements.
    The server checks client OIDs with an inline filter, the client decodes
    the OID the server chose with ssh_gssapi_oid_from_string, and the client
    wraps its own OIDs before sending them. */
module GssapiOid {
  import opened Bytes

  /** SSH_OID_TAG from libssh's gssapi.h: the ASN.1 OBJECT IDENTIFIER tag. */
  const SSH_OID_TAG: byte := 6
  /** The longest wire OID ssh_gssapi_oid_from_string accepts. */
  const MAX_OID_STRING: nat := 256

  /** The wire form the client writes: the length byte is the element count
      truncated to eight bits (an unsigned char store). */
  function EncodeOid(elements: seq<byte>): (r: seq<byte>)
    ensures |r| == |elements| + 2 && r[2..] == elements
  {
    [SSH_OID_TAG, |elements| % 256] + elements
  }

  /** ssh_gssapi_oid_from_string. A NULL ssh_string (no data) is None. Only
      the encoding of a one- to 254-byte element string is accepted. */
  function OidFromString(s: Option<seq<byte>>): (r: Option<seq<byte>>)
    ensures (s.None? || |s.value| <= 2 || |s.value| > MAX_OID_STRING) ==> r.None?
    ensures r.Some? ==> s.Some? && s.value == EncodeOid(r.value) && 1 <= |r.value| <= 254
  {
    if s.None? then None
    else
      var data := s.value;
      if |data| > MAX_OID_STRING || |data| <= 2 then None
      else if data[0] != SSH_OID_TAG || data[1] as int != |data| - 2 then None
      else
        assert data == [data[0], data[1]] + data[2..];
        Some(data[2..])
  }

  /** Decoding undoes encoding exactly for element strings of 1 to 254 bytes;
      the empty OID and longer ones are refused. */
  lemma OidRoundTrip(elements: seq<byte>)
    ensures OidFromString(Some(EncodeOid(elements)))
            == if 1 <= |elements| <= 254 then Some(elements) else None
  {
    var w := EncodeOid(elements);
    if 1 <= |elements| <= 254 {
      assert w[0] == SSH_OID_TAG && w[1] as int == |w| - 2;
    } else if |elements| >= 256 {
      assert |w| > MAX_OID_STRING;
    }
  }

  /** The client's OID wrapping loop in ssh_gssapi_auth_mic: one freshly
      allocated string per selected mechanism, tag and length byte first,
      then the elements copied in. */
  method WrapOids(selected: seq<seq<byte>>) returns (oids: seq<seq<byte>>)
    ensures |oids| == |selected|
    ensures forall i :: 0 <= i < |selected| ==> oids[i] == EncodeOid(selected[i])
  {
    var a := new seq<byte>[|selected|];
    for i := 0 to |selected|
      invariant forall j :: 0 <= j < i ==> a[j] == EncodeOid(selected[j])
    {
      var elements := selected[i];
      var n := |elements|;
      var s := new byte[n + 2];
      s[0] := SSH_OID_TAG;
      s[1] := n % 256;
      for k := 0 to n
        modifies s
        invariant s[0] == SSH_OID_TAG && s[1] == n % 256
        invariant forall m :: 0 <= m < k ==> s[m + 2] == elements[m]
      {
        s[k + 2] := elements[k];
      }
      assert s[..] == EncodeOid(elements);
      a[i] := s[..];
    }
    oids := a[..];
  }

  /** The check the server applies to each client OID (in both loops of
      ssh_gssapi_handle_userauth): NULL strings, strings shorter than two
      bytes, a wrong tag or a wrong length byte are skipped; otherwise the
      elements are the bytes after the first two. */
  function FilterOid(o: Option<seq<byte>>): (r: Option<seq<byte>>)
    ensures r.Some? ==> o.Some? && |o.value| >= 2 && o.value[0] == SSH_OID_TAG && o.value[2..] == r.value
    ensures r.Some? ==> o.value[1] as int == |r.value|
    ensures (o.None? || |o.value| < 2) ==> r.None?
  {
    if o.None? then None
    else
      var s := o.value;
      if |s| < 2 || s[0] != SSH_OID_TAG || s[1] as int != |s| - 2 then None
      else Some(s[2..])
  }

  /** The server filter and the client decoder disagree exactly on two wire
      strings: the empty OID (two bytes) and the 255-element OID (257 bytes),
      which the filter lets through and the decoder refuses. */
  lemma FilterVersusDecoder(o: Option<seq<byte>>)
    ensures FilterOid(o) != OidFromString(o)
            <==> (o.Some? && (|o.value| == 2 || |o.value| == 257)
                  && o.value[0] == SSH_OID_TAG && o.value[1] as int == |o.value| - 2)
    ensures FilterOid(o) != OidFromString(o) ==> OidFromString(o).None?
  {
    if o.Some? && 2 < |o.value| && |o.value| != 257 && FilterOid(o).Some? {
      assert |o.value| <= MAX_OID_STRING;
    }
  }

  /** oid_count after the matching loop: accepted entries that the server
      supports, counted once per entry. */
  function MatchCount(oids: seq<Option<seq<byte>>>, supported: set<seq<byte>>): nat
  {
    if oids == [] then 0
    else
      var n := |oids| - 1;
      var o := FilterOid(oids[n]);
      MatchCount(oids[..n], supported) + (if o.Some? && o.value in supported then 1 else 0)
  }

  /** both_supported after the matching loop. */
  function MatchSet(oids: seq<Option<seq<byte>>>, supported: set<seq<byte>>): set<seq<byte>>
  {
    if oids == [] then {}
    else
      var n := |oids| - 1;
      var o := FilterOid(oids[n]);
      MatchSet(oids[..n], supported) + (if o.Some? && o.value in supported then {o.value} else {})
  }

  /** The matching loop of ssh_gssapi_handle_userauth. */
  method FilterOids(oids: seq<Option<seq<byte>>>, supported: set<seq<byte>>)
    returns (count: nat, both: set<seq<byte>>)
    ensures count == MatchCount(oids, supported) && both == MatchSet(oids, supported)
  {
    count, both := 0, {};
    for i := 0 to |oids|
      invariant count == MatchCount(oids[..i], supported) && both == MatchSet(oids[..i], supported)
    {
      assert oids[..i + 1][..i] == oids[..i];
      var oid := FilterOid(oids[i]);
      if oid.Some? {
        if oid.value in supported {
          both := both + {oid.value};
          count := count + 1;
        }
      }
    }
    assert oids[..|oids|] == oids;
  }

  /** An OID is in both_supported exactly when the server supports it and some
      client entry passes the filter with it. */
  lemma {:induction false} MatchSetMembers(oids: seq<Option<seq<byte>>>, supported: set<seq<byte>>,
                                           e: seq<byte>)
    ensures e in MatchSet(oids, supported)
            <==> e in supported && exists i :: 0 <= i < |oids| && FilterOid(oids[i]) == Some(e)
    decreases |oids|
  {
    if oids != [] {
      var n := |oids| - 1;
      MatchSetMembers(oids[..n], supported, e);
      if e in supported && (exists i :: 0 <= i < |oids| && FilterOid(oids[i]) == Some(e)) {
        var i :| 0 <= i < |oids| && FilterOid(oids[i]) == Some(e);
        if i < n {
          assert oids[..n][i] == oids[i];
        }
      }
      if exists i :: 0 <= i < n && FilterOid(oids[..n][i]) == Some(e) {
        var i :| 0 <= i < n && FilterOid(oids[..n][i]) == Some(e);
        assert FilterOid(oids[i]) == Some(e);
      }
    }
  }

  /** The distinct matches never outnumber oid_count, which never exceeds the
      number of client entries; in particular oid_count is zero exactly when
      no OID was added, the case that makes the server send the default reply. */
  lemma {:induction false} MatchCountBounds(oids: seq<Option<seq<byte>>>, supported: set<seq<byte>>)
    ensures |MatchSet(oids, supported)| <= MatchCount(oids, supported) <= |oids|
    ensures MatchCount(oids, supported) == 0 <==> MatchSet(oids, supported) == {}
    decreases |oids|
  {
    if oids != [] {
      var n := |oids| - 1;
      MatchCountBounds(oids[..n], supported);
      var o := FilterOid(oids[n]);
      if o.Some? && o.value in supported {
        var s := MatchSet(oids[..n], supported);
        assert |s + {o.value}| <= |s| + 1 by {
          if o.value in s {
            assert s + {o.value} == s;
          }
        }
      }
    }
  }

  /** Whether client entry i names an OID of the acquired set. */
  predicate IsSelected(oids: seq<Option<seq<byte>>>, selected: set<seq<byte>>, i: nat)
    requires i < |oids|
  {
    FilterOid(oids[i]).Some? && FilterOid(oids[i]).value in selected
  }

  /** The first client entry at or after `from` that names an acquired OID. */
  function FirstSelected(oids: seq<Option<seq<byte>>>, selected: set<seq<byte>>, from: nat): Option<nat>
    decreases |oids| - from
  {
    if from >= |oids| then None
    else if IsSelected(oids, selected, from) then Some(from)
    else FirstSelected(oids, selected, from + 1)
  }

  /** FirstSelected finds the earliest selected entry from `from` on, and
      finds none only when there is none. */
  lemma {:induction false} FirstSelectedIsFirst(oids: seq<Option<seq<byte>>>, selected: set<seq<byte>>,
                                                from: nat)
    ensures var r := FirstSelected(oids, selected, from);
            && (r.Some? ==> from <= r.value < |oids| && IsSelected(oids, selected, r.value)
                            && forall j :: from <= j < r.value ==> !IsSelected(oids, selected, j))
            && (r.None? ==> forall j :: from <= j < |oids| ==> !IsSelected(oids, selected, j))
    decreases |oids| - from
  {
    if from < |oids| && !IsSelected(oids, selected, from) {
      FirstSelectedIsFirst(oids, selected, from + 1);
    }
  }

  /** The selection loop of ssh_gssapi_handle_userauth: it stops on the first
      client entry that passes the filter with an OID in the acquired set. */
  method SelectOid(oids: seq<Option<seq<byte>>>, selected: set<seq<byte>>) returns (idx: Option<nat>)
    ensures idx == FirstSelected(oids, selected, 0)
  {
    var i := 0;
    while i < |oids|
      invariant 0 <= i <= |oids|
      invariant FirstSelected(oids, selected, i) == FirstSelected(oids, selected, 0)
    {
      var oid := FilterOid(oids[i]);
      if oid.Some? && oid.value in selected {
        return Some(i);
      }
      i := i + 1;
    }
    idx := None;
  }
}
