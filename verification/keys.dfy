/**
 Key derivation requests to the vetKD system API. The aggregator derives a
 client's key in `run_aggregation` (src/lib.rs:105-109); a client derives its
 own key through `get_symmetric_key_for_client` (src/lib.rs:297-309). The
 derivation itself is an inter-canister call and appears only as a
 parameter from requests to optional key bytes (`None`: the call failed).
 */
module Keys {
  import opened Types

  datatype Curve = Bls12_381

  datatype KeyId = KeyId(curve: Curve, name: string)

  datatype DeriveRequest = DeriveRequest(keyId: KeyId, derivationPath: seq<seq<Byte>>)

  /** `bls12_381_g2_test_key_1()` (src/lib.rs:311-316) */
  function TestKey1(): KeyId {
    KeyId(Bls12_381, "test_key_1")
  }

  /** The bytes of an ASCII string literal, `b"..."`. */
  function AsciiBytes(s: string): (r: seq<Byte>)
    requires forall i :: 0 <= i < |s| ==> s[i] as int < 256
    ensures |r| == |s|
    ensures forall i :: 0 <= i < |s| ==> r[i] == s[i] as int
  {
    seq(|s|, i requires 0 <= i < |s| => s[i] as int)
  }

  /** `b"model_update_encryption"`, the fixed first segment of the aggregator's path. */
  function ModelUpdateLabel(): seq<Byte> {
    AsciiBytes("model_update_encryption")
  }

  /**
   The request the aggregator sends to re-derive the key of client `p`: the
   test key, and a two-segment path whose second segment is the principal.
   */
  function AggregatorRequest(p: Principal): (r: DeriveRequest)
    ensures r.keyId == TestKey1()
    ensures |r.derivationPath| == 2 && r.derivationPath[1] == p
  {
    DeriveRequest(TestKey1(), [ModelUpdateLabel(), p])
  }

  /** Every client's update key is derived from its own request: distinct principals, distinct requests. */
  lemma AggregatorRequestsDistinct(p: Principal, q: Principal)
    ensures AggregatorRequest(p) == AggregatorRequest(q) <==> p == q
  {
  }

  /** The request `get_symmetric_key_for_client(path)` sends for `caller` (`vec![caller].concat()` is `caller`). */
  function ClientRequest(path: seq<Byte>, caller: Principal): DeriveRequest {
    DeriveRequest(TestKey1(), [path, caller])
  }

  /**
   A client that asks for its key with the path `b"model_update_encryption"`
   sends exactly the request the aggregator sends for it, and no other path
   or caller does: the same key on both sides without any key exchange.
   */
  lemma KeySymmetry(path: seq<Byte>, caller: Principal, p: Principal)
    ensures ClientRequest(path, caller) == AggregatorRequest(p) <==> path == ModelUpdateLabel() && caller == p
  {
    if ClientRequest(path, caller) == AggregatorRequest(p) {
      assert ClientRequest(path, caller).derivationPath[0] == path;
      assert AggregatorRequest(p).derivationPath[1] == p;
    }
  }

  function HexDigit(n: nat): (c: char)
    requires n < 16
  {
    "0123456789abcdef"[n]
  }

  function HexValue(c: char): (r: Option<nat>)
    ensures r.Some? ==> r.value < 16
  {
    if '0' <= c <= '9' then Some(c as int - '0' as int)
    else if 'a' <= c <= 'f' then Some(c as int - 'a' as int + 10)
    else None
  }

  /** `hex::encode`: two lower-case hex digits per byte, high nibble first. */
  function HexEncode(bs: seq<Byte>): (r: string)
    ensures |r| == 2 * |bs|
    ensures forall i :: 0 <= i < |r| ==> HexValue(r[i]).Some?
  {
    if bs == [] then ""
    else [HexDigit(bs[0] as int / 16), HexDigit(bs[0] as int % 16)] + HexEncode(bs[1..])
  }

  /** The inverse of `HexEncode` on well-formed input; `None` on a stray character or odd length. */
  function HexDecode(s: string): Option<seq<Byte>>
    decreases |s|
  {
    if s == [] then Some([])
    else if |s| == 1 then None
    else match (HexValue(s[0]), HexValue(s[1]), HexDecode(s[2..]))
      case (Some(hi), Some(lo), Some(rest)) => Some([hi * 16 + lo] + rest)
      case _ => None
  }

  lemma HexDigitValue(n: nat)
    requires n < 16
    ensures HexValue(HexDigit(n)) == Some(n)
  {
  }

  /** The hex string handed to the client decodes back to exactly the derived key bytes. */
  lemma {:induction false} HexRoundTrip(bs: seq<Byte>)
    ensures HexDecode(HexEncode(bs)) == Some(bs)
  {
    if bs != [] {
      var b := bs[0];
      HexDigitValue(b / 16);
      HexDigitValue(b % 16);
      HexRoundTrip(bs[1..]);
      var e := HexEncode(bs);
      assert e[0] == HexDigit(b / 16) && e[1] == HexDigit(b % 16);
      assert e[2..] == HexEncode(bs[1..]);
      assert HexValue(e[0]) == Some(b / 16) && HexValue(e[1]) == Some(b % 16);
      assert HexDecode(e) == Some([(b / 16) * 16 + b % 16] + bs[1..]);
      assert (b / 16) * 16 + b % 16 == b;
      assert [b] + bs[1..] == bs;
    }
  }

  /**
   `get_symmetric_key_for_client`: derive the key for `[path, caller]` and
   return it hex-encoded; a failed call is an error.
   */
  function GetSymmetricKeyForClient(vetkd: DeriveRequest -> Option<seq<Byte>>, caller: Principal, path: seq<Byte>)
    : (r: Result<string>)
    ensures vetkd(ClientRequest(path, caller)).None? <==> r == Err(KeyServiceUnavailable)
    ensures r.Ok? ==> HexDecode(r.value) == vetkd(ClientRequest(path, caller))
  {
    match vetkd(ClientRequest(path, caller))
    case None => Err(KeyServiceUnavailable)
    case Some(key) =>
      HexRoundTrip(key);
      Ok(HexEncode(key))
  }
}
