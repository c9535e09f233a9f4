/**
  The token codec that handles and references use to talk to the host: the
  StringDecoder and StringEncoder classes of arcs.h.

  A decoder is modelled by the input it has not consumed yet (its cursor);
  every decoding step returns the value it read and the rest of the input, or
  the DecodeError that stops decoding. The layout of a token is this model's
  own, built from the four declared primitives:

    value   prefix, decimal length, ':', the characters, '|'   (encode)
            read back with getInt(':') and chomp(len)           (decode)
    list    decimal count, ':', then per item length ':' chunk  (decodeList)

  Lengths make every value self-delimiting, so no character needs escaping.
*/
module Wire {
  import opened Results

  datatype DecodeError =
    | MissingSeparator(sep: char)          // upTo found no separator
    | BadNumber(token: string)             // getInt read something that is not a numeral
    | Truncated(wanted: nat, available: nat) // chomp asked for more than is left
    | UnexpectedToken(expected: string)    // validate saw another token

  /** A decoding step: the value read and the unconsumed rest of the input. */
  type Step<T> = Result<(T, string), DecodeError>

  /** The outcome of a list decode: the items read before the first failure,
      and whether the whole list was read. */
  datatype Decoded<T> = Decoded(items: seq<T>, complete: bool)

  // ---- Decimal numerals ----

  predicate IsDigit(c: char) { '0' <= c <= '9' }

  predicate AllDigits(s: string) { forall i :: 0 <= i < |s| ==> IsDigit(s[i]) }

  predicate IsNumeral(s: string) { |s| > 0 && AllDigits(s) }

  function DigitValue(c: char): nat
    requires IsDigit(c)
  {
    c as int - '0' as int
  }

  function DigitChar(d: nat): (c: char)
    requires d < 10
    ensures IsDigit(c) && DigitValue(c) == d
  {
    ('0' as int + d) as char
  }

  /** Decimal rendering of a length or count, most significant digit first. */
  function NatToStr(n: nat): (s: string)
    ensures IsNumeral(s)
    ensures |s| <= n + 1
  {
    if n < 10 then [DigitChar(n)] else NatToStr(n / 10) + [DigitChar(n % 10)]
  }

  function ParseNat(s: string): nat
    requires AllDigits(s)
  {
    if s == [] then 0 else ParseNat(s[..|s| - 1]) * 10 + DigitValue(s[|s| - 1])
  }

  lemma {:induction false} ParseNatToStr(n: nat)
    ensures ParseNat(NatToStr(n)) == n
  {
    if n >= 10 {
      var s := NatToStr(n);
      assert s[..|s| - 1] == NatToStr(n / 10);
      ParseNatToStr(n / 10);
    }
  }

  lemma NumeralHasNoSeparator(s: string, sep: char)
    requires AllDigits(s) && !IsDigit(sep)
    ensures sep !in s
  {
  }

  // ---- Decoder primitives ----

  /** upTo(sep): the characters before the first `sep`; the cursor moves past it. */
  function UpTo(s: string, sep: char): (r: Step<string>)
    ensures r.Success? <==> sep in s
    ensures r.Success? ==> s == r.value.0 + [sep] + r.value.1 && sep !in r.value.0
  {
    if s == [] then Failure(MissingSeparator(sep))
    else if s[0] == sep then Success(([], s[1..]))
    else
      match UpTo(s[1..], sep)
      case Failure(e) => Failure(e)
      case Success((token, rest)) =>
        assert s == [s[0]] + s[1..];
        Success(([s[0]] + token, rest))
  }

  lemma {:induction false} UpToSplit(token: string, rest: string, sep: char)
    requires sep !in token
    ensures UpTo(token + [sep] + rest, sep) == Success((token, rest))
  {
    var s := token + [sep] + rest;
    if token != [] {
      assert s[0] == token[0];
      assert s[1..] == token[1..] + [sep] + rest;
      UpToSplit(token[1..], rest, sep);
      assert [token[0]] + token[1..] == token;
    } else {
      assert s[1..] == rest;
    }
  }

  /** getInt(sep): the numeral before `sep`. */
  function GetInt(s: string, sep: char): (r: Step<nat>)
    ensures r.Success? ==> |r.value.1| < |s|
  {
    var (token, rest) :- UpTo(s, sep);
    if IsNumeral(token) then Success((ParseNat(token), rest)) else Failure(BadNumber(token))
  }

  /** chomp(len): the next `len` characters. */
  function Chomp(s: string, len: nat): (r: Step<string>)
    ensures r.Success? <==> len <= |s|
    ensures r.Success? ==> s == r.value.0 + r.value.1 && |r.value.0| == len
  {
    if len <= |s| then Success((s[..len], s[len..])) else Failure(Truncated(len, |s|))
  }

  /** validate(token): the input must continue with exactly `token`. */
  function Validate(s: string, token: string): (r: Result<string, DecodeError>)
    ensures r.Success? <==> |token| <= |s| && s[..|token|] == token
    ensures r.Success? ==> s == token + r.value
  {
    if |token| <= |s| && s[..|token|] == token then Success(s[|token|..])
    else Failure(UnexpectedToken(token))
  }

  /** done(): the whole input has been consumed, so not even one more
      character can be chomped. */
  function Done(s: string): (d: bool)
    ensures d <==> Chomp(s, 1).Failure?
  {
    s == []
  }

  // ---- Strings ----

  /** decode(std::string&): a length, ':' and that many characters. */
  function DecodeString(s: string): (r: Step<string>)
    ensures r.Success? ==> |r.value.1| < |s|
  {
    var (len, rest) :- GetInt(s, ':');
    Chomp(rest, len)
  }

  /** encode(prefix, std::string): the token that DecodeString reads back, then '|'. */
  function EncodeString(prefix: string, v: string): (s: string)
    ensures |prefix| + |v| + 2 < |s|
    ensures s[..|prefix|] == prefix && s[|s| - 1] == '|'
    ensures s[|s| - 1 - |v|..|s| - 1] == v
  {
    var s := prefix + LengthPrefixed(v) + "|";
    assert s[|s| - 1 - |v|..|s| - 1] == v;
    s
  }

  function LengthPrefixed(v: string): string
  {
    NatToStr(|v|) + ":" + v
  }

  lemma GetIntOfNumeral(n: nat, rest: string)
    ensures GetInt(NatToStr(n) + [':'] + rest, ':') == Success((n, rest))
  {
    NumeralHasNoSeparator(NatToStr(n), ':');
    UpToSplit(NatToStr(n), rest, ':');
    ParseNatToStr(n);
  }

  lemma DecodeLengthPrefixed(v: string, rest: string)
    ensures DecodeString(LengthPrefixed(v) + rest) == Success((v, rest))
  {
    assert LengthPrefixed(v) + rest == NatToStr(|v|) + [':'] + (v + rest);
    GetIntOfNumeral(|v|, v + rest);
    assert (v + rest)[..|v|] == v;
    assert (v + rest)[|v|..] == rest;
  }

  /** Decoding an encoded value gives it back and leaves the cursor on its '|'. */
  lemma DecodeEncodedString(v: string, rest: string)
    ensures DecodeString(EncodeString("", v) + rest) == Success((v, "|" + rest))
  {
    assert EncodeString("", v) + rest == LengthPrefixed(v) + ("|" + rest);
    DecodeLengthPrefixed(v, "|" + rest);
  }

  // ---- Lists ----

  /** decodeList: the count, then `count` length-prefixed chunks, scanned in
      one forward pass; a failure ends the scan with the chunks read so far. */
  function ScanList(s: string): (d: Decoded<string>)
  {
    match GetInt(s, ':')
    case Failure(_) => Decoded([], false)
    case Success((count, rest)) => ScanChunks(rest, count)
  }

  function ScanChunks(s: string, count: nat): (d: Decoded<string>)
    ensures |d.items| <= count
    ensures d.complete ==> |d.items| == count
    decreases count
  {
    if count == 0 then Decoded([], true)
    else
      match DecodeString(s)
      case Failure(_) => Decoded([], false)
      case Success((chunk, rest)) =>
        var tail := ScanChunks(rest, count - 1);
        Decoded([chunk] + tail.items, tail.complete)
  }

  function EncodeChunks(chunks: seq<string>): string
  {
    if chunks == [] then "" else LengthPrefixed(chunks[0]) + EncodeChunks(chunks[1..])
  }

  /** The list layout that decodeList reads (written by the host). */
  function EncodeList(chunks: seq<string>): string
  {
    NatToStr(|chunks|) + ":" + EncodeChunks(chunks)
  }

  lemma {:induction false} ScanEncodedChunks(chunks: seq<string>)
    ensures ScanChunks(EncodeChunks(chunks), |chunks|) == Decoded(chunks, true)
  {
    if chunks != [] {
      DecodeLengthPrefixed(chunks[0], EncodeChunks(chunks[1..]));
      ScanEncodedChunks(chunks[1..]);
      assert [chunks[0]] + chunks[1..] == chunks;
    }
  }

  lemma ScanEncodedList(chunks: seq<string>)
    ensures ScanList(EncodeList(chunks)) == Decoded(chunks, true)
  {
    assert EncodeList(chunks) == NatToStr(|chunks|) + [':'] + EncodeChunks(chunks);
    GetIntOfNumeral(|chunks|, EncodeChunks(chunks));
    ScanEncodedChunks(chunks);
  }

  /** Decode every chunk with `decode`, stopping at the first that fails. */
  function DecodeAll<T>(chunks: seq<string>, decode: string -> Result<T, DecodeError>): (d: Decoded<T>)
    ensures |d.items| <= |chunks|
    ensures d.complete ==> |d.items| == |chunks|
  {
    if chunks == [] then Decoded([], true)
    else
      match decode(chunks[0])
      case Failure(_) => Decoded([], false)
      case Success(x) =>
        var tail := DecodeAll(chunks[1..], decode);
        Decoded([x] + tail.items, tail.complete)
  }

  /** Each item is its chunk decoded, and a pass that stops early stops at
      the first chunk that fails to decode. */
  lemma {:induction false} DecodeAllItems<T>(chunks: seq<string>, decode: string -> Result<T, DecodeError>)
    ensures var d := DecodeAll(chunks, decode);
            && (forall i :: 0 <= i < |d.items| ==> decode(chunks[i]) == Success(d.items[i]))
            && (!d.complete ==> |d.items| < |chunks| && decode(chunks[|d.items|]).Failure?)
  {
    if chunks != [] && decode(chunks[0]).Success? {
      DecodeAllItems(chunks[1..], decode);
      assert forall i :: 1 <= i < |chunks| ==> chunks[i] == chunks[1..][i - 1];
    }
  }

  function Prepend<T>(xs: seq<T>, d: Decoded<T>): Decoded<T>
  {
    Decoded(xs + d.items, d.complete)
  }

  /** One step of DecodeAll over a suffix of the chunks, as a callback loop
      takes it: `all` is what the whole pass yields, `xs` the items decoded so
      far. A failing chunk ends the pass with exactly `xs`. */
  lemma DecodeAllAdvance<T>(chunks: seq<string>, i: nat, xs: seq<T>, all: Decoded<T>, decode: string -> Result<T, DecodeError>)
    requires i < |chunks| && all == Prepend(xs, DecodeAll(chunks[i..], decode))
    ensures decode(chunks[i]).Failure? ==> all == Decoded(xs, false)
    ensures decode(chunks[i]).Success? ==>
      all == Prepend(xs + [decode(chunks[i]).value], DecodeAll(chunks[i + 1..], decode))
  {
    assert chunks[i..][0] == chunks[i];
    assert chunks[i..][1..] == chunks[i + 1..];
    if decode(chunks[i]).Success? {
      var rest := DecodeAll(chunks[i + 1..], decode);
      assert xs + ([decode(chunks[i]).value] + rest.items) == xs + [decode(chunks[i]).value] + rest.items;
    }
  }

  /** Once every chunk is consumed, the pass yields exactly the items decoded. */
  lemma DecodeAllFinished<T>(chunks: seq<string>, xs: seq<T>, all: Decoded<T>, decode: string -> Result<T, DecodeError>)
    requires all == Prepend(xs, DecodeAll(chunks[|chunks|..], decode))
    ensures all == Decoded(xs, true)
  {
    assert chunks[|chunks|..] == [];
    assert xs + [] == xs;
  }

  /** decodeList with a per-item callback that decodes each chunk. */
  function DecodeList<T>(s: string, decode: string -> Result<T, DecodeError>): (d: Decoded<T>)
    ensures |d.items| <= |ScanList(s).items|
    ensures forall i :: 0 <= i < |d.items| ==> decode(ScanList(s).items[i]) == Success(d.items[i])
    ensures d.complete <==> ScanList(s).complete && |d.items| == |ScanList(s).items|
  {
    DecodeAllItems(ScanList(s).items, decode);
    var scan := ScanList(s);
    var d := DecodeAll(scan.items, decode);
    Decoded(d.items, scan.complete && d.complete)
  }

  lemma {:induction false} DecodeAllEncoded<T>(xs: seq<T>, chunks: seq<string>, decode: string -> Result<T, DecodeError>)
    requires |chunks| == |xs|
    requires forall i :: 0 <= i < |xs| ==> decode(chunks[i]) == Success(xs[i])
    ensures DecodeAll(chunks, decode) == Decoded(xs, true)
  {
    if xs != [] {
      DecodeAllEncoded(xs[1..], chunks[1..], decode);
      assert [xs[0]] + xs[1..] == xs;
    }
  }

  /** A removed id: one string value read from the chunk; anything after it is ignored. */
  function DecodeId(chunk: string): Result<string, DecodeError>
  {
    var (id, _) :- DecodeString(chunk);
    Success(id)
  }

  function DecodeIds(s: string): Decoded<string>
  {
    DecodeList(s, DecodeId)
  }

  /** A removed id as the host writes it: one encoded string value. */
  function EncodeIdChunk(id: string): string
  {
    EncodeString("", id)
  }

  function IdChunks(ids: seq<string>): (chunks: seq<string>)
  {
    seq(|ids|, i requires 0 <= i < |ids| => EncodeIdChunk(ids[i]))
  }

  function EncodeIds(ids: seq<string>): string
  {
    EncodeList(IdChunks(ids))
  }

  lemma DecodeIdOfChunk(id: string)
    ensures DecodeId(EncodeIdChunk(id)) == Success(id)
  {
    assert EncodeIdChunk(id) == EncodeString("", id) + "";
    DecodeEncodedString(id, "");
  }

  lemma DecodeEncodedIds(ids: seq<string>)
    ensures DecodeIds(EncodeIds(ids)) == Decoded(ids, true)
  {
    var chunks := IdChunks(ids);
    forall i | 0 <= i < |ids| ensures DecodeId(chunks[i]) == Success(ids[i]) {
      DecodeIdOfChunk(ids[i]);
    }
    ScanEncodedList(chunks);
    DecodeAllEncoded(ids, chunks, DecodeId);
  }
}
