/** Numbers as `printf` writes them, and the chunked transfer coding of RFC 7230, section 4.1, with a
    decoder to read it back. */
module ChunkedCoding {
  import opened Wrappers

  const CRLF := "\r\n"
  const LAST_CHUNK := "0\r\n\r\n"

  // ---- Numbers ----

  function DigitOf(d: nat): char
    requires d < 16
  {
    if d < 10 then '0' + d as char else 'a' + (d - 10) as char
  }

  /** `%zx` for base 16, `%llu` for base 10. */
  function Numeral(n: nat, base: nat): (s: string)
    requires 2 <= base <= 16
    ensures s != ""
    decreases n
  {
    if n < base then [DigitOf(n)] else Numeral(n / base, base) + [DigitOf(n % base)]
  }

  /** `%d`. */
  function Decimal(n: int): string {
    if n < 0 then "-" + Numeral(-n, 10) else Numeral(n, 10)
  }

  predicate IsHexDigit(c: char) {
    '0' <= c <= '9' || 'a' <= c <= 'f' || 'A' <= c <= 'F'
  }

  /** HEXDIG of the ABNF, in either case. */
  function HexDigitValue(c: char): (v: nat)
    requires IsHexDigit(c)
    ensures v < 16
  {
    if c <= '9' then (c - '0') as nat
    else if 'a' <= c then 10 + (c - 'a') as nat
    else 10 + (c - 'A') as nat
  }

  predicate AllHex(s: string) {
    forall i :: 0 <= i < |s| ==> IsHexDigit(s[i])
  }

  function HexValue(s: string): nat
    requires AllHex(s)
  {
    if s == "" then 0 else 16 * HexValue(s[..|s| - 1]) + HexDigitValue(s[|s| - 1])
  }

  lemma {:induction false} HexOfNumeral(n: nat)
    ensures AllHex(Numeral(n, 16)) && HexValue(Numeral(n, 16)) == n
  {
    if n >= 16 {
      HexOfNumeral(n / 16);
      var s := Numeral(n, 16);
      assert s[..|s| - 1] == Numeral(n / 16, 16);
    } else {
      assert HexValue("") == 0;
      var s := Numeral(n, 16);
      assert s[..|s| - 1] == "";
    }
  }

  function Power(base: nat, k: nat): nat {
    if k == 0 then 1 else base * Power(base, k - 1)
  }

  lemma QuotientBelow(n: nat, b: nat, p: nat)
    requires b >= 1 && n < b * p
    ensures n / b < p
  {
    var q := n / b;
    assert b * q <= n < b * p;
    assert b * (p - q) > 0;
  }

  lemma {:induction false} NumeralLength(n: nat, base: nat, k: nat)
    requires 2 <= base <= 16 && k >= 1 && n < Power(base, k)
    ensures |Numeral(n, base)| <= k
  {
    if n >= base {
      assert k > 1 by { assert Power(base, 1) == base * Power(base, 0); }
      QuotientBelow(n, base, Power(base, k - 1));
      NumeralLength(n / base, base, k - 1);
    }
  }

  // ---- Chunks ----

  function Chunk(piece: string): string {
    Numeral(|piece|, 16) + CRLF + piece + CRLF
  }

  function Chunks(pieces: seq<string>): string {
    if pieces == [] then "" else Chunk(pieces[0]) + Chunks(pieces[1..])
  }

  function Flatten(pieces: seq<string>): string {
    if pieces == [] then "" else pieces[0] + Flatten(pieces[1..])
  }

  /** How many hexadecimal digits `s` starts with. */
  function HexRun(s: string): (n: nat)
    ensures n <= |s| && AllHex(s[..n])
  {
    if s == "" || !IsHexDigit(s[0]) then 0
    else
      var n := HexRun(s[1..]);
      assert s[..n + 1] == [s[0]] + s[1..][..n];
      n + 1
  }

  predicate CrlfAt(s: string, i: nat) {
    i + 2 <= |s| && s[i] == '\r' && s[i + 1] == '\n'
  }

  /** The line that gives the size of a chunk: the number, and where the line's end stands. */
  function SizeLine(s: string): (r: Option<(nat, nat)>)
    ensures r.Some? ==> CrlfAt(s, r.value.1)
  {
    var n := HexRun(s);
    if n == 0 || !CrlfAt(s, n) then None else Some((HexValue(s[..n]), n))
  }

  /** One chunk, without extensions, at the head of `s`, and what follows it. */
  function FirstChunk(s: string): (r: Option<(string, string)>)
    ensures r.Some? ==> |r.value.1| < |s|
  {
    match SizeLine(s)
    case None => None
    case Some((size, n)) =>
      if !CrlfAt(s, n + 2 + size) then None
      else Some((s[n + 2..n + 2 + size], s[n + 2 + size + 2..]))
  }

  /** A chunked body without trailers: the decoded data and what follows the body. The last chunk and
      the line that ends the body read like a chunk without data. None where the text is not of
      that form. */
  function Dechunk(s: string): Option<(string, string)>
    decreases |s|
  {
    match FirstChunk(s)
    case None => None
    case Some((piece, rest)) => if piece == "" then Some(("", rest)) else InFront(piece, Dechunk(rest))
  }

  function InFront(piece: string, decoded: Option<(string, string)>): Option<(string, string)> {
    if decoded.Some? then Some((piece + decoded.value.0, decoded.value.1)) else None
  }

  lemma {:induction false} HexRunStops(s: string, t: string)
    requires AllHex(s) && t != "" && !IsHexDigit(t[0])
    ensures HexRun(s + t) == |s|
  {
    if s == "" {
      assert s + t == t;
    } else {
      assert (s + t)[1..] == s[1..] + t;
      HexRunStops(s[1..], t);
    }
  }

  /** Where the parts of `h CRLF piece CRLF t` stand. */
  lemma Layout(s: string, h: string, piece: string, t: string)
    requires s == h + CRLF + piece + CRLF + t
    ensures |s| == |h| + 2 + |piece| + 2 + |t|
    ensures s[..|h|] == h && CrlfAt(s, |h|)
    ensures s[|h| + 2..|h| + 2 + |piece|] == piece
    ensures CrlfAt(s, |h| + 2 + |piece|) && s[|h| + 2 + |piece| + 2..] == t
  {
  }

  /** Decoding one chunk in front of anything. */
  lemma DechunkChunk(piece: string, t: string)
    ensures Dechunk(Chunk(piece) + t) == if piece == "" then Some(("", t)) else InFront(piece, Dechunk(t))
  {
    var s, h := Chunk(piece) + t, Numeral(|piece|, 16);
    assert s == h + CRLF + piece + CRLF + t;
    HexOfNumeral(|piece|);
    HexRunOfChunk(h, piece, t);
    Layout(s, h, piece, t);
    assert SizeLine(s) == Some((|piece|, |h|));
    FirstChunkAt(s, |h|, piece, t);
  }

  lemma HexRunOfChunk(h: string, piece: string, t: string)
    requires AllHex(h)
    ensures HexRun(h + CRLF + piece + CRLF + t) == |h|
  {
    var tail := CRLF + piece + CRLF + t;
    assert tail[0] == '\r';
    HexRunStops(h, tail);
    assert h + tail == h + CRLF + piece + CRLF + t;
  }

  lemma FirstChunkAt(s: string, n: nat, piece: string, t: string)
    requires SizeLine(s) == Some((|piece|, n)) && |s| == n + 2 + |piece| + 2 + |t|
    requires s[n + 2..n + 2 + |piece|] == piece
    requires CrlfAt(s, n + 2 + |piece|) && s[n + 2 + |piece| + 2..] == t
    ensures FirstChunk(s) == Some((piece, t))
  {
  }

  /** What decoding makes of the bytes for any list of body pieces and the last chunk. */
  lemma {:induction false} DechunkChunks(pieces: seq<string>) returns (body: string, rest: string)
    ensures Dechunk(Chunks(pieces) + LAST_CHUNK) == Some((body, rest))
    ensures if "" in pieces then rest != "" else body == Flatten(pieces) && rest == ""
  {
    if pieces == [] {
      assert Chunk("") == LAST_CHUNK by { assert Numeral(0, 16) == "0"; }
      DechunkChunk("", "");
      assert Chunks(pieces) + LAST_CHUNK == Chunk("") + "";
      body, rest := "", "";
    } else {
      var tail := Chunks(pieces[1..]) + LAST_CHUNK;
      assert Chunks(pieces) + LAST_CHUNK == Chunk(pieces[0]) + tail;
      DechunkChunk(pieces[0], tail);
      assert pieces == [pieces[0]] + pieces[1..];
      if pieces[0] == "" {
        body, rest := "", tail;
      } else {
        body, rest := DechunkChunks(pieces[1..]);
        body := pieces[0] + body;
      }
    }
  }

  /** The round trip: decoding gives the concatenation of the pieces and uses up all the bytes exactly
      when no piece is empty; an empty piece prints the last chunk. */
  lemma ChunkedRoundTrip(pieces: seq<string>)
    ensures Dechunk(Chunks(pieces) + LAST_CHUNK) == Some((Flatten(pieces), "")) <==> "" !in pieces
  {
    var body, rest := DechunkChunks(pieces);
  }
}
