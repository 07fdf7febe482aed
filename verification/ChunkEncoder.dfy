/** The sender's half of chunked coding (the loop of send_chunked_request, send_chunked.py:24-49),
    and the round trip through the decoder. */
module ChunkEncoder {
  import opened Text
  import opened Numerals
  import opened Chunked
  import opened ChunkTheorems
  import opened BodyPhase

  const LAST_CHUNK: string := "0\r\n\r\n"

  function Chunk(data: string): string { Hex(|data|) + CRLF + data + CRLF }

  function Encode(data: string, chunkSize: nat): string
    requires chunkSize >= 1
    decreases |data|
  {
    if data == "" then LAST_CHUNK
    else
      var n := Min(chunkSize, |data|);
      Chunk(data[..n]) + Encode(data[n..], chunkSize)
  }

  lemma EncodeStep(out: string, data: string, sent: nat, chunkSize: nat)
    requires chunkSize >= 1 && sent < |data|
    ensures var n := Min(chunkSize, |data| - sent);
            out + Encode(data[sent..], chunkSize) ==
                out + Chunk(data[sent..sent + n]) + Encode(data[sent + n..], chunkSize)
  {
    hide Chunk;
    var n := Min(chunkSize, |data| - sent);
    DropTake(data, sent, n);
    DropDrop(data, sent, n);
    Assoc(out, Chunk(data[sent..sent + n]), Encode(data[sent + n..], chunkSize));
  }

  lemma EncodeEnd(data: string, chunkSize: nat)
    requires chunkSize >= 1
    ensures Encode(data[|data|..], chunkSize) == LAST_CHUNK
  {
  }

  /** The three sendall calls of a turn send one chunk. */
  lemma ThreeSends(out: string, data: string)
    ensures out + (Hex(|data|) + CRLF) + data + CRLF == out + Chunk(data)
  {
    hide Hex;
    var head := Hex(|data|) + CRLF;
    Assoc(out, head, data);
    Assoc(out, head + data, CRLF);
  }

  /** The loop: `sent` advances by one chunk a turn; what sendall was given so far is `out`. */
  method SendChunked(data: string, chunkSize: nat) returns (out: string)
    requires chunkSize >= 1
    ensures out == Encode(data, chunkSize)
  {
    hide Chunk;
    hide Encode;
    hide Hex;
    EncodeEnd(data, chunkSize);
    out := "";
    var sent := 0;
    assert data[0..] == data;
    while sent < |data|
      invariant sent <= |data|
      invariant out + Encode(data[sent..], chunkSize) == Encode(data, chunkSize)
    {
      EncodeStep(out, data, sent, chunkSize);
      var current := Min(chunkSize, |data| - sent);
      var chunk := data[sent..sent + current];
      ThreeSends(out, chunk);
      out := out + (Hex(current) + CRLF);
      out := out + chunk;
      out := out + CRLF;
      sent := sent + current;
    }
    out := out + LAST_CHUNK;
  }

  // ---------------------------------------------------------------- the decoder on encoded chunks

  /** A printed size, as its line is read. */
  lemma SizeLineOfHex(n: nat)
    requires n < SIZE_MODULUS
    ensures ChunkSize(Hex(n) + CRLF) == Some(n)
  {
    var h := Hex(n);
    assert "" + h + CRLF == h + CRLF;
    assert IsHexDigit(h[0]) && IsHexDigit(h[|h| - 1]);
    TrimCore("", h, CRLF, "\r\n \t");
    StrtoulHex(n);
  }

  lemma FindLineOfHex(n: nat, rest: string)
    ensures Find(Hex(n) + CRLF + rest, CRLF, 0) == Some(|Hex(n)|)
  {
    var h := Hex(n);
    var s := h + CRLF + rest;
    assert s[|h|..|h| + 2] == CRLF;
    forall j | 0 <= j < |h| ensures !At(s, CRLF, j) {
      assert IsHexDigit(h[j]) && s[j] == h[j];
      if At(s, CRLF, j) { AtFirst(s, CRLF, j); }
    }
    FindIs(s, CRLF, 0, |h|);
  }

  lemma HexLineTurn(rule: Rule, d: Place, n: nat, rest: string)
    requires Counters(d) && !d.reading && n < SIZE_MODULUS && rest != ""
    ensures n > 0 ==> OneTurn(rule, ChunkSize, d, Hex(n) + CRLF + rest) == Again(Place(d.body, true, n, 0), rest)
    ensures n == 0 ==>
              OneTurn(rule, ChunkSize, d, Hex(n) + CRLF + rest) ==
              Stop(LastChunk(rule, d, Hex(n) + CRLF + rest, |Hex(n)| + 2))
  {
    hide ChunkSize;
    hide Hex;
    var u := Hex(n) + CRLF + rest;
    FindLineOfHex(n, rest);
    SizeLineOfHex(n);
    assert u[..|Hex(n)| + 2] == Hex(n) + CRLF && u[|Hex(n)| + 2..] == rest;
    assert SizeLineEnd(rule, u) == Some(|Hex(n)| + 2);
  }

  lemma DataLineTurn(rule: Rule, body: string, data: string, rest: string)
    requires data != ""
    ensures OneTurn(rule, ChunkSize, Place(body, true, |data|, 0), data + CRLF + rest) ==
            Again(Outside(body + data), rest)
  {
    var u := data + CRLF + rest;
    assert u[..|data|] == data && u[|data|..] == CRLF + rest;
    assert (CRLF + rest)[..2] == CRLF && (CRLF + rest)[2..] == rest;
  }

  lemma DecodeChunk(rule: Rule, body: string, data: string, rest: string)
    requires 0 < |data| < SIZE_MODULUS
    ensures Chunks(rule, ChunkSize, Outside(body), Chunk(data) + rest) ==
            Chunks(rule, ChunkSize, Outside(body + data), rest)
  {
    hide ChunkSize;
    hide OneTurn;
    hide Hex;
    assert Chunk(data) + rest == Hex(|data|) + CRLF + (data + CRLF + rest);
    HexLineTurn(rule, Outside(body), |data|, data + CRLF + rest);
    DataLineTurn(rule, body, data, rest);
  }

  lemma DecodeLast(rule: Rule, body: string, more: string)
    ensures Chunks(rule, ChunkSize, Outside(body), LAST_CHUNK + more) == Decoded(Finished, Outside(body), more)
  {
    assert Hex(0) == "0";
    var rest := CRLF + more;
    assert LAST_CHUNK + more == Hex(0) + CRLF + rest;
    HexLineTurn(rule, Outside(body), 0, rest);
    hide ChunkSize;
    hide OneTurn;
    hide Hex;
    var u := LAST_CHUNK + more;
    assert u[3..] == rest && rest[..2] == CRLF && rest[2..] == more;
  }

  /** Decoding inverts encoding, under either rule, and leaves what follows unread. */
  lemma {:induction false} DecodeEncode(rule: Rule, body: string, data: string, chunkSize: nat, more: string)
    requires 1 <= chunkSize < SIZE_MODULUS
    ensures Chunks(rule, ChunkSize, Outside(body), Encode(data, chunkSize) + more) ==
            Decoded(Finished, Outside(body + data), more)
    decreases |data|
  {
    hide Chunks;
    hide ChunkSize;
    hide Chunk;
    hide Hex;
    if data == "" {
      DecodeLast(rule, body, more);
      assert body + "" == body;
    } else {
      var n := Min(chunkSize, |data|);
      var rest := Encode(data[n..], chunkSize) + more;
      Assoc(Chunk(data[..n]), Encode(data[n..], chunkSize), more);
      DecodeChunk(rule, body, data[..n], rest);
      DecodeEncode(rule, body + data[..n], data[n..], chunkSize, more);
      assert body + data[..n] + data[n..] == body + data;
    }
  }

  /** Main result: the sender's stream, cut into reads in any way at all, decodes to exactly the bytes sent. */
  lemma RoundTripUnderAnySplit(data: string, chunkSize: nat, pieces: seq<string>)
    requires 1 <= chunkSize < SIZE_MODULUS && Concat(pieces) == Encode(data, chunkSize)
    ensures Deliver(Repaired, ChunkSize, Decoded(More, Outside(""), ""), pieces) == Decoded(Finished, Outside(data), "")
  {
    SplitIndependence(ChunkSize, Outside(""), pieces);
    DecodeEncode(Repaired, "", data, chunkSize, "");
    assert Encode(data, chunkSize) + "" == Encode(data, chunkSize) && "" + data == data;
  }

  /** The shipped decoder does the same for every split without a bad cut. */
  lemma RoundTripShipped(data: string, chunkSize: nat, pieces: seq<string>)
    requires 1 <= chunkSize < SIZE_MODULUS && Concat(pieces) == Encode(data, chunkSize)
    requires CleanCuts(ChunkSize, Outside(""), "", pieces)
    ensures Deliver(Shipped, ChunkSize, Decoded(More, Outside(""), ""), pieces) == Decoded(Finished, Outside(data), "")
  {
    hide ChunkSize;
    ShippedInStepExactly(ChunkSize, Outside(""), "", pieces);
    InStepDelivers(ChunkSize, Outside(""), "", Decoded(More, Outside(""), ""), pieces);
    assert "" + Concat(pieces) == Concat(pieces);
    DecodeEncode(Repaired, "", data, chunkSize, "");
    assert Encode(data, chunkSize) + "" == Encode(data, chunkSize) && "" + data == data;
  }

  // ---------------------------------------------------------------- two cuts that go wrong

  lemma SizeOfOne()
    ensures SizeOf(ChunkSize, "1") == Some(1)
  {
    assert Hex(1) == "1";
    StrtoulHex(1);
    assert "" + "1" + "" == "1";
    TrimCore("", "1", "", "\r\n \t");
  }

  /** A read that ends inside the size line "10": the shipped decoder takes the 0 for a byte of data. */
  lemma CutInsideSizeLine()
    ensures CutsFraming(ChunkSize, Outside(""), "10")
    ensures Chunks(Shipped, ChunkSize, Outside(""), "10") == Decoded(More, Place("0", true, 1, 1), "")
    ensures Chunks(Repaired, ChunkSize, Outside(""), "10") == Decoded(More, Outside(""), "10")
  {
    hide ChunkSize;
    hide Chunks;
    var u := "10";
    forall j | 0 <= j ensures !At(u, CRLF, j) {
      if j == 0 { assert u[0..2][0] == '1'; }
    }
    assert Find(u, CRLF, 0).None?;
    SizeOfOne();
    assert u[..1] == "1" && u[1..] == "0";
    ShippedShortLine(ChunkSize, Outside(""), u);
    RepairedShortLine(ChunkSize, Outside(""), u);
    assert "" + "0" == "0";
  }

  /** A read that ends one byte into the closing CRLF: the shipped decoder has dropped the size line "0" by then. */
  lemma CutInsideClosing()
    ensures Chunks(Shipped, ChunkSize, Outside(""), "0\r\n\r") == Decoded(More, Outside(""), "\r")
    ensures CutsFraming(ChunkSize, Outside(""), "0\r\n\r")
  {
    hide ChunkSize;
    var d, u := Outside(""), "0\r\n\r";
    assert Hex(0) == "0";
    assert u == Hex(0) + CRLF + "\r";
    HexLineTurn(Shipped, d, 0, "\r");
    HexLineTurn(Repaired, d, 0, "\r");
    assert u[3..] == "\r" && u[..3] == Hex(0) + CRLF;
    FindLineOfHex(0, "\r");
    SizeLineOfHex(0);
  }

  lemma ClosingWaits(d: Place)
    requires Counters(d) && !d.reading
    ensures Chunks(Shipped, ChunkSize, d, CRLF) == Decoded(More, d, CRLF)
  {
    hide ChunkSize;
    assert At(CRLF, CRLF, 0);
    FindIs(CRLF, CRLF, 0, 0);
    assert SizeLineEnd(Shipped, CRLF) == None;
  }

  /** With the last byte it still waits, although the whole body has arrived. */
  lemma ClosingNeverSeen()
    ensures Deliver(Shipped, ChunkSize, Decoded(More, Outside(""), ""), ["0\r\n\r", "\n"]) ==
            Decoded(More, Outside(""), "\r\n")
    ensures Concat(["0\r\n\r", "\n"]) == Encode("", 1)
  {
    hide ChunkSize;
    hide Chunks;
    CutInsideClosing();
    ClosingWaits(Outside(""));
    assert "" + "0\r\n\r" == "0\r\n\r" && "\r" + "\n" == CRLF;
    assert ["0\r\n\r", "\n"][1..] == ["\n"] && ["\n"][1..] == [];
    assert "0\r\n\r" + "\n" == LAST_CHUNK;
  }

  // ---------------------------------------------------------------- and one that rights itself

  lemma SizeOfZero()
    ensures SizeOf(ChunkSize, "0") == Some(0)
  {
    assert Hex(0) == "0";
    StrtoulHex(0);
    assert "" + "0" + "" == "0";
    TrimCore("", "0", "", "\r\n \t");
  }

  lemma LeadingZeroCut()
    ensures CutsFraming(ChunkSize, Outside(""), "01")
    ensures Chunks(Shipped, ChunkSize, Outside(""), "01") == Decoded(More, Outside(""), "1")
  {
    hide ChunkSize;
    hide Chunks;
    var u := "01";
    forall j | 0 <= j ensures !At(u, CRLF, j) {
      if j == 0 { assert u[0..2][0] == '0'; }
    }
    assert Find(u, CRLF, 0).None?;
    SizeOfZero();
    assert u[..1] == "0" && u[1..] == "1";
    ShippedShortLine(ChunkSize, Outside(""), u);
  }

  /** A size line with a leading zero, cut behind its second digit: the shipped decoder drops the zero, is out of step
      after that read, and still comes to the right end. So a clean delivery is what it takes to be right after every
      read, and more than it takes to be right in the end. */
  lemma OutOfStepAndBack()
    ensures CutsFraming(ChunkSize, Outside(""), "01")
    ensures Deliver(Shipped, ChunkSize, Decoded(More, Outside(""), ""), ["01", "\r\nx\r\n0\r\n\r\n"]) ==
            Decoded(Finished, Outside("x"), "")
  {
    hide ChunkSize;
    hide Chunks;
    hide Hex;
    LeadingZeroCut();
    DecodeEncode(Shipped, "", "x", 1, "");
    assert Encode("x", 1) + "" == "1\r\nx\r\n0\r\n\r\n" by { EncodeOne(); }
    assert "" + "01" == "01" && "" + "x" == "x" && "1" + "\r\nx\r\n0\r\n\r\n" == "1\r\nx\r\n0\r\n\r\n";
    assert ["01", "\r\nx\r\n0\r\n\r\n"][1..] == ["\r\nx\r\n0\r\n\r\n"] && ["\r\nx\r\n0\r\n\r\n"][1..] == [];
  }

  lemma EncodeOne()
    ensures Encode("x", 1) == "1\r\nx\r\n0\r\n\r\n"
  {
    assert Hex(1) == "1";
    assert "x"[..1] == "x" && "x"[1..] == "";
  }
}
