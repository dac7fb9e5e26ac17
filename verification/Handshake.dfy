/** The opening handshake: finding the request in the received bytes, and the response. */
module Handshake {
  import opened Bytes
  import Base64
  import Sha1

  datatype Option<T> = None | Some(value: T)

  function Ascii(s: string): (r: seq<byte>)
    ensures |r| == |s|
  {
    seq(|s|, i requires 0 <= i < |s| => if s[i] as int < 256 then s[i] as int else 0)
  }

  const CRLF: seq<byte> := [13, 10]
  const BLANK_LINE: seq<byte> := [13, 10, 13, 10]

  /** Does `pat` stand at position i of d? */
  predicate At(d: seq<byte>, pat: seq<byte>, i: nat)
  {
    i + |pat| <= |d| && d[i..i + |pat|] == pat
  }

  /** The first position from `from` on at which `pat` stands. */
  function Find(d: seq<byte>, pat: seq<byte>, from: nat): (r: Option<nat>)
    ensures r.Some? ==> r.value >= from && At(d, pat, r.value)
    ensures forall j: nat :: from <= j && (r.None? || j < r.value) ==> !At(d, pat, j)
    decreases |d| - from
  {
    if from + |pat| > |d| then None
    else if At(d, pat, from) then Some(from)
    else Find(d, pat, from + 1)
  }

  /** Drop trailing spaces and tabs. */
  function TrimEnd(s: seq<byte>): (r: seq<byte>)
    ensures r <= s
    ensures r != [] ==> r[|r| - 1] != 32 && r[|r| - 1] != 9
    ensures forall i :: |r| <= i < |s| ==> s[i] == 32 || s[i] == 9
  {
    if s != [] && (s[|s| - 1] == 32 || s[|s| - 1] == 9) then TrimEnd(s[..|s| - 1]) else s
  }

  function GetVerb(): seq<byte> { Ascii("GET ") }
  function KeyHeader(): seq<byte> { Ascii("Sec-WebSocket-Key: ") }
  function KeyHeaderLower(): seq<byte> { Ascii("sec-websocket-key: ") }

  /** Where the key header stands: the canonical spelling anywhere in the data wins over the lower
      case one. */
  function FindKeyHeader(d: seq<byte>): Option<nat>
  {
    var p := Find(d, KeyHeader(), 0);
    if p.Some? then p else Find(d, KeyHeaderLower(), 0)
  }

  datatype Request = Waiting | Malformed | Upgrade(size: nat, key: seq<byte>)

  /** The request at the front of the received bytes, as far as they have arrived. */
  function ParseRequest(d: seq<byte>): (r: Request)
    ensures r.Upgrade? ==> 4 <= r.size <= |d| && r.key != []
  {
    var end := Find(d, BLANK_LINE, 0);
    if end.None? then Waiting
    else if d[..4] != GetVerb() then Malformed
    else
      var keyPos := FindKeyHeader(d);
      if keyPos.None? then Malformed
      else
        var start := keyPos.value + |KeyHeader()|;
        var stop := Find(d, CRLF, start);
        if stop.None? then Malformed
        else
          var key := TrimEnd(d[start..stop.value]);
          if key == [] then Malformed else Upgrade(end.value + 4, key)
  }

  /** req ends at its first blank line, within the 1024 bytes that an attempt looks at. */
  predicate IsHead(req: seq<byte>)
  {
    var end := Find(req, BLANK_LINE, 0);
    |req| <= 1024 && end.Some? && end.value + 4 == |req|
  }

  /** What is taken as the request is such a head. */
  lemma RequestIsHead(d: seq<byte>)
    requires |d| <= 1024 && ParseRequest(d).Upgrade?
    ensures IsHead(d[..ParseRequest(d).size])
  {
    hide FindKeyHeader, GetVerb, TrimEnd, KeyHeader, At;
    var end := Find(d, BLANK_LINE, 0).value;
    var req := d[..end + 4];
    assert forall j: nat :: j <= end ==> (At(req, BLANK_LINE, j) <==> At(d, BLANK_LINE, j)) by {
      forall j: nat | j <= end ensures At(req, BLANK_LINE, j) <==> At(d, BLANK_LINE, j) {
        AtPrefix(d, end + 4, BLANK_LINE, j);
      }
    }
    var r := Find(req, BLANK_LINE, 0);
  }

  lemma AtPrefix(d: seq<byte>, n: nat, pat: seq<byte>, i: nat)
    requires i + |pat| <= n <= |d|
    ensures At(d[..n], pat, i) <==> At(d, pat, i)
  {
    assert d[..n][i..i + |pat|] == d[i..i + |pat|];
  }

  function Magic(): seq<byte> { Ascii("258EAFA5-E914-47DA-95CA-C5AB0DC85B11") }

  function AcceptKey(key: seq<byte>): seq<byte>
  {
    Base64.Encode(Sha1.Digest(key + Magic()))
  }

  function StatusLine(): (r: seq<byte>)
    ensures |r| == 34
  {
    Ascii("HTTP/1.1 101 Switching Protocols\r\n")
  }

  function UpgradeLine(): (r: seq<byte>)
    ensures |r| == 20
  {
    Ascii("Upgrade: websocket\r\n")
  }

  function ConnectionLine(): (r: seq<byte>)
    ensures |r| == 21
  {
    Ascii("Connection: Upgrade\r\n")
  }

  function AcceptName(): (r: seq<byte>)
    ensures |r| == 22
  {
    Ascii("Sec-WebSocket-Accept: ")
  }

  function Response(key: seq<byte>): seq<byte>
  {
    StatusLine() + UpgradeLine() + ConnectionLine() + AcceptName() + AcceptKey(key) + BLANK_LINE
  }

  /** The accept key always has 28 characters and the response 129, whatever the client sent. */
  lemma ResponseLength(key: seq<byte>)
    ensures |AcceptKey(key)| == 28
    ensures |Response(key)| == 129
  {
    hide AcceptKey, StatusLine, UpgradeLine, ConnectionLine, AcceptName;
    AcceptKeyLength(key);
  }

  lemma AcceptKeyLength(key: seq<byte>)
    ensures |AcceptKey(key)| == 28
  {
    hide Sha1.Digest, Base64.Encode, Magic;
    Base64.DecodeInvertsEncode(Sha1.Digest(key + Magic()));
  }

  /** The accept key computed by the streaming hash and the encoding loop. */
  method GenerateAcceptKey(clientKey: seq<byte>) returns (accept: seq<byte>)
    ensures accept == AcceptKey(clientKey)
  {
    var digest := Sha1.Compute(clientKey + Magic());
    accept := Base64.EncodeBytes(digest);
  }

  /** The loop that trims the key. */
  method TrimKey(s: seq<byte>) returns (r: seq<byte>)
    ensures r == TrimEnd(s)
  {
    r := s;
    while r != [] && (r[|r| - 1] == 32 || r[|r| - 1] == 9)
      invariant TrimEnd(r) == TrimEnd(s)
      decreases |r|
    {
      r := r[..|r| - 1];
    }
  }

  /** The request as the handshake code reads it. */
  method ReadRequest(data: seq<byte>) returns (r: Request)
    ensures r == ParseRequest(data)
  {
    hide Find, TrimEnd, KeyHeader, KeyHeaderLower, GetVerb;
    var end := Find(data, BLANK_LINE, 0);
    if end.None? { return Waiting; }
    if data[..4] != GetVerb() { return Malformed; }
    var keyPos := Find(data, KeyHeader(), 0);
    if keyPos.None? {
      keyPos := Find(data, KeyHeaderLower(), 0);
    }
    if keyPos.None? { return Malformed; }
    var start := keyPos.value + |KeyHeader()|;
    var stop := Find(data, CRLF, start);
    if stop.None? { return Malformed; }
    var key := TrimKey(data[start..stop.value]);
    if key == [] { return Malformed; }
    r := Upgrade(end.value + 4, key);
  }
}
