/**
 * Bytes received from a client and their strict 7-bit US-ASCII decoding
 * (`buf.decode(encoding='ascii')`, dashboard_server.py:231-235).
 */
module Ascii {
  import opened Wrappers

  type byte = x: int | 0 <= x < 256

  /** Every byte is below 128. */
  predicate IsAscii(data: seq<byte>) {
    forall i :: 0 <= i < |data| ==> data[i] < 128
  }

  /** Every character is below 128. */
  predicate IsAsciiText(s: string) {
    forall i :: 0 <= i < |s| ==> s[i] < 128 as char
  }

  /**
   * Strict ASCII decoding: fails (`None`, Python raises `UnicodeDecodeError`)
   * as soon as one byte is 128 or more, otherwise maps each byte to the
   * character with the same code.
   */
  function Decode(data: seq<byte>): (r: Option<string>)
    ensures r.Some? <==> IsAscii(data)
    ensures r.Some? ==> |r.value| == |data|
    ensures r.Some? ==> forall i :: 0 <= i < |data| ==> r.value[i] as int == data[i]
  {
    if data == [] then Some("")
    else if data[0] >= 128 then None
    else
      match Decode(data[1..])
      case None => None
      case Some(rest) => Some([data[0] as char] + rest)
  }

  /** What a client sends for an ASCII text: one byte per character. */
  function Encode(s: string): (data: seq<byte>)
    requires IsAsciiText(s)
    ensures |data| == |s| && IsAscii(data)
    ensures forall i :: 0 <= i < |s| ==> data[i] == s[i] as int
  {
    seq(|s|, i requires 0 <= i < |s| => s[i] as int)
  }

  /** Decoding what was encoded gives the text back. */
  lemma DecodeEncode(s: string)
    requires IsAsciiText(s)
    ensures Decode(Encode(s)) == Some(s)
  {
    var d := Decode(Encode(s));
    assert d.value == s;
  }

  /** A successful decode loses nothing: encoding its text gives the bytes back. */
  lemma EncodeDecode(data: seq<byte>)
    requires Decode(data).Some?
    ensures IsAsciiText(Decode(data).value)
    ensures Encode(Decode(data).value) == data
  {
  }
}
