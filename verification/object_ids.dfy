/**
 * BSON ObjectIds: twelve bytes, written as 24 hexadecimal characters.
 * `new ObjectId(s)` accepts exactly the 24-character strings of hex digits
 * (either case) and throws IllegalArgumentException for anything else;
 * `toHexString()` writes the lowercase form. Fresh ids come from a counter.
 */
module ObjectIds {
  import opened Options
  import opened Text
  import opened Hex

  const IdBytes: nat := 12

  datatype ObjectId = ObjectId(bytes: seq<byte>)

  /** Every id carries exactly twelve bytes. */
  predicate WellFormed(id: ObjectId) {
    |id.bytes| == IdBytes
  }

  /** `new ObjectId(s)`, with None for the IllegalArgumentException case. */
  function ParseObjectId(s: string): (r: Option<ObjectId>)
    ensures r.Some? <==> |s| == 2 * IdBytes && forall i :: 0 <= i < |s| ==> IsHexChar(s[i])
    ensures r.Some? ==> WellFormed(r.value)
  {
    if |s| != 2 * IdBytes then None
    else match ParseHex(s)
      case Some(bytes) => Some(ObjectId(bytes))
      case None => None
  }

  /** `id.toHexString()`. */
  function ToHexString(id: ObjectId): (s: string)
    requires WellFormed(id)
    ensures |s| == 2 * IdBytes
  {
    HexOfBytes(id.bytes)
  }

  /** The hex string of an id parses back to that id. */
  lemma ParseToHexString(id: ObjectId)
    requires WellFormed(id)
    ensures ParseObjectId(ToHexString(id)) == Some(id)
  {
    ParseHexOfBytes(id.bytes);
  }

  /** Parsing and printing again gives the input with its letters lower-cased. */
  lemma ToHexStringOfParse(s: string)
    requires ParseObjectId(s).Some?
    ensures ToHexString(ParseObjectId(s).value) == Lower(s)
  {
    HexOfParseHex(s);
  }

  // ---------------------------------------------------------------------
  // Generated ids

  function Pow256(k: nat): (p: nat)
    ensures p > 0
  {
    if k == 0 then 1 else 256 * Pow256(k - 1)
  }

  /** The number of distinct ids. */
  const IdSpace: nat := Pow256(IdBytes)

  /** `n` as `k` bytes, most significant first (the top digits of larger values are dropped). */
  function BigEndian(n: nat, k: nat): (r: seq<byte>)
    ensures |r| == k
  {
    if k == 0 then [] else BigEndian(n / 256, k - 1) + [n % 256]
  }

  /** The number a byte sequence denotes, most significant byte first. */
  function ValueOf(bytes: seq<byte>): nat {
    if bytes == [] then 0 else ValueOf(bytes[..|bytes| - 1]) * 256 + bytes[|bytes| - 1]
  }

  lemma {:induction false} ValueOfBigEndian(n: nat, k: nat)
    requires n < Pow256(k)
    ensures ValueOf(BigEndian(n, k)) == n
  {
    if k > 0 {
      ValueOfBigEndian(n / 256, k - 1);
      var r := BigEndian(n, k);
      assert r[..|r| - 1] == BigEndian(n / 256, k - 1);
    }
  }

  /** The number an id stands for; distinct numbers below IdSpace give distinct ids. */
  function IdValue(id: ObjectId): nat {
    ValueOf(id.bytes)
  }

  /** The id the driver assigns to the `n`th insertion. */
  function NewObjectId(n: nat): (id: ObjectId)
    ensures WellFormed(id)
  {
    ObjectId(BigEndian(n % IdSpace, IdBytes))
  }

  /** Counters past IdSpace wrap around; below IdSpace, the `n`th generated id stands for `n`: generated ids never repeat. */
  lemma IdValueOfNewObjectId(n: nat)
    ensures IdValue(NewObjectId(n)) == n % IdSpace <= n
    ensures n < IdSpace ==> IdValue(NewObjectId(n)) == n
  {
    ValueOfBigEndian(n % IdSpace, IdBytes);
  }
}
