/** Listing the blobs of a bucket sixteen ways, and reading scores off their records (internal/blob/gcs_store.go). */
module BlobListing {
  import opened Wrappers
  import opened Scores
  import opened BlobStores

  /** A record of an object, with the checksums that GCS reports. */
  datatype Object = Object(name: string, metadata: map<string, string>, crc32c: nat, md5: Option<Bytes>)

  const SHA1_KEY := "comeback_sha1"
  const CRC32C_KEY := "comeback_crc32c"
  const MD5_KEY := "comeback_md5"
  const MD5_LENGTH := 16

  /** Formatting and parsing of a 32-bit number with its base in front. */
  datatype Numbers = Numbers(format: nat -> string, parse: string -> Option<nat>)

  ghost predicate NumbersSound(ns: Numbers) {
    forall n :: n < 0x1_0000_0000 ==> ns.parse(ns.format(n)) == Some(n)
  }

  /** hex.Decode takes digits of either case. */
  function LowerHex(c: char): char {
    if 'A' <= c <= 'F' then (c as int - 'A' as int + 'a' as int) as char else c
  }

  function DecodeAnyCase(s: string): Option<Bytes> {
    Decode(seq(|s|, i requires 0 <= i < |s| => LowerHex(s[i])))
  }

  lemma {:induction false} HexIsLower(b: Bytes)
    ensures forall i :: 0 <= i < |Hex(b)| ==> IsHexDigit(Hex(b)[i])
  {
    if b != [] {
      HexIsLower(b[1..]);
      assert HexByte(b[0])[0] == Digit(b[0] / 16) && HexByte(b[0])[1] == Digit(b[0] % 16);
    }
  }

  /** The character is the digit, in either case. */
  predicate IsDigitInAnyCase(c: char, digit: char) {
    c == digit || ('A' <= c <= 'F' && digit as int == c as int + 32)
  }

  /** A text decodes if and only if it is the bytes in hex, each digit in either case. */
  lemma AnyCaseDecodesIff(s: string, b: Bytes)
    ensures DecodeAnyCase(s) == Some(b) <==>
      |s| == |Hex(b)| && forall i :: 0 <= i < |s| ==> IsDigitInAnyCase(s[i], Hex(b)[i])
  {
    var lower, hex := seq(|s|, i requires 0 <= i < |s| => LowerHex(s[i])), Hex(b);
    DecodeHex(b);
    HexIsLower(b);
    if Decode(lower) == Some(b) {
      HexDecode(lower);
      assert forall i :: 0 <= i < |s| ==> lower[i] == hex[i];
    }
    if |s| == |hex| && forall i :: 0 <= i < |s| ==> IsDigitInAnyCase(s[i], hex[i]) {
      assert lower == hex;
    }
  }

  function ParseObjectRecord(ns: Numbers, o: Object): Option<Score> {
    if !(BLOB_PREFIX <= o.name) then None
    else
      var hexScore := o.name[|BLOB_PREFIX|..];
      if ParsedScore(hexScore).None? then None
      else if SHA1_KEY !in o.metadata || o.metadata[SHA1_KEY] != hexScore then None
      else if CRC32C_KEY !in o.metadata || ns.parse(o.metadata[CRC32C_KEY]) != Some(o.crc32c) then None
      else if MD5_KEY !in o.metadata || |o.metadata[MD5_KEY]| / 2 != MD5_LENGTH then None
      else if DecodeAnyCase(o.metadata[MD5_KEY]).None? || o.md5 != DecodeAnyCase(o.metadata[MD5_KEY]) then None
      else ParsedScore(hexScore)
  }

  /** What saving creates for a blob with this score and these checksums. */
  function SavedObject(ns: Numbers, s: Score, crc32c: nat, md5: Bytes): Object {
    Object(BlobName(s),
           map[SHA1_KEY := Hex(s), CRC32C_KEY := ns.format(crc32c), MD5_KEY := Hex(md5)],
           crc32c, Some(md5))
  }

  /** The record of a saved blob parses as its score. */
  lemma SavedObjectParses(ns: Numbers, s: Score, crc32c: nat, md5: Bytes)
    requires NumbersSound(ns) && crc32c < 0x1_0000_0000 && |md5| == MD5_LENGTH
    ensures ParseObjectRecord(ns, SavedObject(ns, s, crc32c, md5)) == Some(s)
  {
    var o := SavedObject(ns, s, crc32c, md5);
    assert o.name[|BLOB_PREFIX|..] == Hex(s);
    HexBijection(s, Hex(s));
    HexIsLower(md5);
    var text := Hex(md5);
    assert seq(|text|, i requires 0 <= i < |text| => LowerHex(text[i])) == text;
    DecodeHex(md5);
    assert SHA1_KEY[9] == 's' && CRC32C_KEY[9] == 'c' && MD5_KEY[9] == 'm';
  }

  /** A record parses if and only if its name is that of the score and all of its metadata agree. */
  lemma ParsesIffConsistent(ns: Numbers, o: Object, s: Score)
    ensures ParseObjectRecord(ns, o) == Some(s) <==>
      && o.name == BlobName(s)
      && SHA1_KEY in o.metadata && o.metadata[SHA1_KEY] == Hex(s)
      && CRC32C_KEY in o.metadata && ns.parse(o.metadata[CRC32C_KEY]) == Some(o.crc32c)
      && MD5_KEY in o.metadata && o.md5.Some? && |o.md5.value| == MD5_LENGTH
      && DecodeAnyCase(o.metadata[MD5_KEY]) == o.md5
  {
    if BLOB_PREFIX <= o.name {
      var hexScore := o.name[|BLOB_PREFIX|..];
      HexBijection(s, hexScore);
      assert o.name == BLOB_PREFIX + hexScore;
    }
    assert BlobName(s)[|BLOB_PREFIX|..] == Hex(s);
  }

  // ---- Sixteen listings ----

  const HEX_DIGITS := "0123456789abcdef"

  function WithPrefix(objects: seq<Object>, prefix: string): seq<Object> {
    if objects == [] then []
    else
      var last := |objects| - 1;
      WithPrefix(objects[..last], prefix) + if prefix <= objects[last].name then [objects[last]] else []
  }

  /** All that the first k listings send, one after another; in fact they interleave. */
  function Listings(objects: seq<Object>, k: nat): seq<Object>
    requires k <= |HEX_DIGITS|
  {
    if k == 0 then [] else Listings(objects, k - 1) + WithPrefix(objects, BLOB_PREFIX + [HEX_DIGITS[k - 1]])
  }

  function Count(objects: seq<Object>, o: Object): nat {
    multiset(objects)[o]
  }

  lemma CountAppend(a: seq<Object>, b: seq<Object>, o: Object)
    ensures Count(a + b, o) == Count(a, o) + Count(b, o)
  {
  }

  lemma {:induction false} WithPrefixCounts(objects: seq<Object>, prefix: string, o: Object)
    ensures Count(WithPrefix(objects, prefix), o) == if prefix <= o.name then Count(objects, o) else 0
  {
    if objects != [] {
      var last := |objects| - 1;
      WithPrefixCounts(objects[..last], prefix, o);
      assert objects == objects[..last] + [objects[last]];
    }
  }

  function DigitIndex(c: char): (k: nat)
    requires IsHexDigit(c)
    ensures k < 16 && HEX_DIGITS[k] == c && forall j :: 0 <= j < 16 && HEX_DIGITS[j] == c ==> j == k
  {
    DigitValue(c)
  }

  /** Which of the listings shows a name. */
  lemma OnlyOneDigit(name: string, d: nat, k: nat)
    requires d < 16 && k < 16 && BLOB_PREFIX + [HEX_DIGITS[d]] <= name
    ensures BLOB_PREFIX + [HEX_DIGITS[k]] <= name <==> k == d
  {
    assert name[6] == HEX_DIGITS[d] && (BLOB_PREFIX + [HEX_DIGITS[k]])[6] == HEX_DIGITS[k];
    assert IsHexDigit(HEX_DIGITS[d]);
    var i := DigitIndex(HEX_DIGITS[d]);
  }

  lemma {:induction false} ListingsCount(objects: seq<Object>, k: nat, o: Object, d: nat)
    requires k <= 16 && d < 16 && BLOB_PREFIX + [HEX_DIGITS[d]] <= o.name
    ensures Count(Listings(objects, k), o) == if d < k then Count(objects, o) else 0
  {
    if k > 0 {
      var prefix := BLOB_PREFIX + [HEX_DIGITS[k - 1]];
      ListingsCount(objects, k - 1, o, d);
      WithPrefixCounts(objects, prefix, o);
      OnlyOneDigit(o.name, d, k - 1);
      CountAppend(Listings(objects, k - 1), WithPrefix(objects, prefix), o);
    }
  }

  /** The sixteen listings together show every blob exactly as often as one listing of the bucket would. */
  lemma SixteenWaysMissNothing(objects: seq<Object>, o: Object, s: Score)
    requires o.name == BlobName(s)
    ensures Count(Listings(objects, 16), o) == Count(objects, o)
  {
    HexIsLower(s);
    var d := DigitIndex(Hex(s)[0]);
    assert BLOB_PREFIX + [HEX_DIGITS[d]] <= o.name;
    ListingsCount(objects, 16, o, d);
  }
}
