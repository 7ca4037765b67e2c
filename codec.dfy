/**
 * The apcupsd line framing. Every frame starts with a two-byte big-endian
 * length. A response line arrives as length, text and a newline; the reader
 * strips the newline before decoding, so the decoder expects the length to
 * be one more than the number of bytes after the header. The one request the
 * client sends carries no newline, and its length counts the payload only.
 */
module Codec {
  import opened Wrappers
  import opened Text

  datatype DecodeError =
    | TooShort
      /** The declared length, the number of bytes received, and the bytes after the header. */
    | LengthMismatch(expected: nat, got: nat, payload: seq<byte>)

  /** The big-endian 16-bit length at the front of a frame. */
  function Header(b: seq<byte>): (h: nat)
    requires |b| >= 2
    ensures h < 65536
  {
    b[0] as nat * 256 + b[1] as nat
  }

  /**
   * decodeLine: a frame of fewer than two bytes is TooShort; otherwise the
   * frame is accepted exactly when its header equals its length minus one,
   * and then the bytes after the header are the line.
   */
  function DecodeLine(b: seq<byte>): (r: Result<string, DecodeError>)
    ensures r == Err(TooShort) <==> |b| < 2
    ensures r.Ok? <==> |b| >= 2 && Header(b) == |b| - 1
    ensures r.Ok? ==> r.value == ToText(b[2..])
    ensures r.Err? && |b| >= 2 ==> r.error == LengthMismatch(Header(b), |b|, b[2..])
  {
    if |b| < 2 then Err(TooShort)
    else
      var length := Header(b);
      if length != |b| - 1 then Err(LengthMismatch(length, |b|, b[2..]))
      else Ok(ToText(b[2..]))
  }

  /** The two header bytes for a length n. */
  function LengthPrefix(n: nat): (h: seq<byte>)
    requires n < 65536
    ensures |h| == 2 && Header(h) == n
  {
    [(n / 256) as byte, (n % 256) as byte]
  }

  /** The header bytes are determined by the length they encode. */
  lemma LengthPrefixUnique(h: seq<byte>)
    requires |h| == 2
    ensures LengthPrefix(Header(h)) == h
  {
    var n := Header(h);
    assert n / 256 == h[0] as int;
    assert n % 256 == h[1] as int;
  }

  /** A response line as the reader hands it over: header, then the text, newline stripped. */
  function ResponseFrame(p: seq<byte>): seq<byte>
    requires |p| + 1 < 65536
  {
    LengthPrefix(|p| + 1) + p
  }

  /** Round trip: a response frame decodes to its text. */
  lemma DecodeResponseFrame(p: seq<byte>)
    requires |p| + 1 < 65536
    ensures DecodeLine(ResponseFrame(p)) == Ok(ToText(p))
  {
    assert ResponseFrame(p)[2..] == p;
  }

  /** Conversely, every frame the decoder accepts is the response frame of the text it returns. */
  lemma DecodedIsResponseFrame(b: seq<byte>)
    requires DecodeLine(b).Ok?
    ensures |b| >= 2 && |b| - 1 < 65536
    ensures b == ResponseFrame(b[2..])
    ensures DecodeLine(b).value == ToText(b[2..])
  {
    LengthPrefixUnique(b[..2]);
    assert Header(b[..2]) == Header(b);
    assert b == b[..2] + b[2..];
  }

  /** A request frame: header, then the payload; the header counts the payload only. */
  function RequestFrame(p: seq<byte>): (f: seq<byte>)
    requires |p| < 65536
    ensures |f| == |p| + 2 && Header(f) == |p| && f[2..] == p
  {
    LengthPrefix(|p|) + p
  }

  /** The status request the client writes after connecting. */
  const StatusCommand: seq<byte> := [0x00, 0x06, 0x73, 0x74, 0x61, 0x74, 0x75, 0x73]

  /** The status command is the request frame of the six bytes "status". */
  lemma StatusCommandIsStatusRequest()
    ensures IsByteText("status")
    ensures StatusCommand == RequestFrame(FromText("status"))
    ensures ToText(StatusCommand[2..]) == "status"
  {
    var p := FromText("status");
    assert p == StatusCommand[2..] by {
      ToTextInjective(p, StatusCommand[2..]);
    }
  }

  /** The request framing is not the response framing: the decoder refuses the status command. */
  lemma StatusCommandIsNotAResponse()
    ensures DecodeLine(StatusCommand) == Err(LengthMismatch(6, 8, StatusCommand[2..]))
  {
  }
}
