/**
 * NUL-terminated strings on the wire (util.go): the filename, mode and error
 * message fields of RRQ, WRQ and ERROR packets (section 5 of RFC 1350).
 */
module CStrings {
  import opened Base

  /** `toCString`: the bytes of the string followed by one NUL. */
  function ToCString(s: seq<byte>): (r: seq<byte>)
    ensures |r| == |s| + 1
    ensures r[..|s|] == s && r[|s|] == 0
  {
    s + [0]
  }

  /** Index of the first NUL byte of `src`, or `|src|` when it has none. */
  function FirstZero(src: seq<byte>): (i: nat)
    ensures i <= |src|
    ensures forall k :: 0 <= k < i ==> src[k] != 0
    ensures i < |src| ==> src[i] == 0
  {
    if src == [] || src[0] == 0 then 0 else 1 + FirstZero(src[1..])
  }

  /** What `readCString` returns on success: bytes consumed and the string. */
  datatype CRead = CRead(n: nat, s: seq<byte>)

  /**
   * `readCString` as a value: `None` stands for the error return
   * `(0, "", "Incorrect c string")`.
   */
  function DecodeCString(src: seq<byte>): (r: Option<CRead>)
    ensures r.None? <==> forall k :: 0 <= k < |src| ==> src[k] != 0
    ensures r.Some? ==> 1 <= r.value.n <= |src| && src[r.value.n - 1] == 0
    ensures r.Some? ==> r.value.s == src[..r.value.n - 1] && 0 !in r.value.s
  {
    var i := FirstZero(src);
    if i >= |src| then None else Some(CRead(i + 1, src[..i]))
  }

  /**
   * `readCString`: advances `end` until it finds a NUL or runs off the end.
   * On failure it returns `(0, "", false)`.
   */
  method ReadCString(src: seq<byte>) returns (n: nat, s: seq<byte>, ok: bool)
    ensures ok <==> DecodeCString(src).Some?
    ensures ok ==> CRead(n, s) == DecodeCString(src).value
    ensures !ok ==> n == 0 && s == []
  {
    var end := 0;
    while end < |src| && src[end] != 0
      invariant 0 <= end <= |src|
      invariant forall k :: 0 <= k < end ==> src[k] != 0
    {
      end := end + 1;
    }
    if end >= |src| {
      return 0, [], false;
    }
    return end + 1, src[..end], true;
  }

  /** The scan stops at the first NUL: whatever follows the terminator is ignored. */
  lemma TrailingBytesIgnored(s: seq<byte>, rest: seq<byte>)
    requires 0 !in s
    ensures DecodeCString(ToCString(s) + rest) == Some(CRead(|s| + 1, s))
  {
    var src := ToCString(s) + rest;
    assert src[|s|] == 0;
    assert forall k :: 0 <= k < |s| ==> src[k] == s[k];
    assert src[..|s|] == s;
  }

  /** `readCString(toCString(s)) == (len(s)+1, s)` for every NUL-free `s`, `""` included. */
  lemma RoundTrip(s: seq<byte>)
    requires 0 !in s
    ensures DecodeCString(ToCString(s)) == Some(CRead(|s| + 1, s))
  {
    TrailingBytesIgnored(s, []);
    assert ToCString(s) + [] == ToCString(s);
  }

  /** A C string whose terminator was cut off does not decode. */
  lemma TruncatedFails(s: seq<byte>)
    requires 0 !in s
    ensures DecodeCString(ToCString(s)[..|s|]) == None
  {
    assert ToCString(s)[..|s|] == s;
  }

  /** `toCString("hello world!")` is the test's byte vector. */
  lemma HelloEncodes()
    ensures ToCString(Bytes("hello world!")) == [104, 101, 108, 108, 111, 32, 119, 111, 114, 108, 100, 33, 0]
  {
    assert Bytes("hello world!") == [104, 101, 108, 108, 111, 32, 119, 111, 114, 108, 100, 33];
  }

  /** The test's vector decodes back, and without its last byte it is refused. */
  lemma HelloDecodes()
    ensures DecodeCString(ToCString(Bytes("hello world!"))) == Some(CRead(13, Bytes("hello world!")))
    ensures DecodeCString(Bytes("hello world!")) == None
  {
    assert Ascii("hello world!");
    AsciiHasNoNul("hello world!");
    RoundTrip(Bytes("hello world!"));
  }

  /** The empty string's vector: `""` encodes as a lone NUL and decodes back. */
  lemma EmptyVector()
    ensures ToCString([]) == [0]
    ensures DecodeCString([0]) == Some(CRead(1, []))
  {
    RoundTrip([]);
    assert ToCString([]) == [0];
  }
}
