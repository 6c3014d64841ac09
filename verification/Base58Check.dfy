/** Base58Check (util/b58check.cpp) and agent addresses (util/crypto.cpp). */
module Base58Check {
  import opened Bytes
  import opened Positional
  import opened Base58

  /** Any digest function of SHA-256's output size; its internals are not modelled. */
  type Sha256 = h: seq<byte> -> seq<byte> | forall v :: |h(v)| == 32
    ghost witness (v: seq<byte>) => Zeros(32)

  const CHECKSUM_SIZE := 4
  const AGENT_ADDRESS_VERSION_BYTE: byte := 61
  const KEY_HASH_SIZE := 20

  /** The first four bytes of the double hash. */
  function Checksum(sha: Sha256, v: seq<byte>): (c: seq<byte>)
    ensures |c| == CHECKSUM_SIZE
  {
    sha(sha(v))[..CHECKSUM_SIZE]
  }

  method EncodeBase58Check(sha: Sha256, v: seq<byte>) returns (str: string)
    ensures str == Encode(v + sha(sha(v))[..4])
  {
    var vch := v;
    var digest := sha(vch);
    digest := sha(digest);
    vch := vch + digest[..CHECKSUM_SIZE];
    str := EncodeBase58(vch);
  }

  ghost function DecodeCheck(sha: Sha256, s: string): Option<seq<byte>> {
    match Decode(s)
    case None => None
    case Some(all) =>
      if |all| < CHECKSUM_SIZE then None else
        var v := all[..|all| - CHECKSUM_SIZE];
        if all[|v|..] == Checksum(sha, v) then Some(v) else None
  }

  method DecodeBase58Check(sha: Sha256, psz: CString, vch: Buffer) returns (ok: bool)
    modifies vch
    ensures ok <==> DecodeCheck(sha, psz).Some?
    ensures vch.bytes == if ok then DecodeCheck(sha, psz).value else []
  {
    hide Decode, Rebase, Trim;
    ok := DecodeBase58(psz, vch);
    if !ok || |vch.bytes| < CHECKSUM_SIZE {
      vch.bytes := [];
      return false;
    }
    // The last four bytes must be the checksum of the others.
    var n := |vch.bytes| - CHECKSUM_SIZE;
    var v, checksum := vch.bytes[..n], vch.bytes[n..];
    var digest := sha(v);
    digest := sha(digest);
    ok := digest[..CHECKSUM_SIZE] == checksum;
    vch.bytes := if ok then v else [];
  }

  method DecodeBase58CheckString(sha: Sha256, str: string, vch: Buffer) returns (ok: bool)
    modifies vch
    ensures ok <==> DecodeCheck(sha, CStr(str)).Some?
    ensures vch.bytes == if ok then DecodeCheck(sha, CStr(str)).value else []
  {
    ok := DecodeBase58Check(sha, CStr(str), vch);
  }

  /** The payload `v` is accepted exactly when the Base58 bytes are `v` and then its checksum. */
  lemma DecodeCheckIff(sha: Sha256, s: string, v: seq<byte>)
    ensures DecodeCheck(sha, s) == Some(v) <==> Decode(s) == Some(v + sha(sha(v))[..4])
  {
    var all := v + Checksum(sha, v);
    assert all[..|v|] == v && all[|v|..] == Checksum(sha, v);
    if DecodeCheck(sha, s) == Some(v) {
      var was := Decode(s).value;
      assert was == was[..|was| - CHECKSUM_SIZE] + was[|was| - CHECKSUM_SIZE..];
    }
  }

  /** A text decodes to `v` exactly when it is, up to surrounding space, the checked encoding of `v`. */
  lemma CheckedRoundTrip(sha: Sha256, s: string, v: seq<byte>)
    ensures DecodeCheck(sha, s) == Some(v) <==> Trim(s) == Encode(v + sha(sha(v))[..4])
    ensures DecodeCheck(sha, Encode(v + sha(sha(v))[..4])) == Some(v)
  {
    DecodeCheckIff(sha, s, v);
    DecodeIff(s, v + Checksum(sha, v));
    DecodeCheckIff(sha, Encode(v + Checksum(sha, v)), v);
    DecodeEncode(v + Checksum(sha, v));
  }

  // ---------- agent addresses ----------

  /** The address of an agent, from the 20-byte hash of its public key. */
  function AgentAddress(sha: Sha256, keyHash: seq<byte>): string {
    var payload := [AGENT_ADDRESS_VERSION_BYTE] + keyHash;
    Encode(payload + Checksum(sha, payload))
  }

  lemma Power256At24()
    ensures Pow(256, 24) == POW256_16 * 18446744073709551616
  {
    assert Pow(256, 4) == 4294967296;
    PowSum(256, 4, 4, 4294967296, 4294967296);
    Power256At16();
    PowSum(256, 16, 8, POW256_16, 18446744073709551616);
  }

  /** 25 bytes that begin with 61 are a number between 58^33 and 58^34. */
  lemma PowersAround(b58: nat, b256: nat, k: nat, n: nat)
    requires b58 == 58 && b256 == 256 && k == 33 && n == 24
    ensures Pow(b58, k) <= 61 * Pow(b256, n) && 62 * Pow(b256, n) <= Pow(b58, k + 1)
  {
    Power256At24();
    Power58At32();
    assert Pow(58, 1) == 58 && Pow(58, 2) == 3364;
    PowSum(58, 32, 1, POW58_32, 58);
    PowSum(58, 32, 2, POW58_32, 3364);
  }

  /** An address carries its key's hash: it decodes to 61 and then the hash. */
  lemma AddressDecodes(sha: Sha256, keyHash: seq<byte>)
    ensures DecodeCheck(sha, AgentAddress(sha, keyHash)) == Some([61] + keyHash)
  {
    hide DecodeCheck, Encode;
    CheckedRoundTrip(sha, "", [61] + keyHash);
  }

  /** Every agent address is 34 alphabet characters, none of them a zero character or a space. */
  lemma AddressIs34(sha: Sha256, keyHash: seq<byte>)
    requires |keyHash| == KEY_HASH_SIZE
    ensures var a := AgentAddress(sha, keyHash);
            |a| == MAX_ADDRESS_SIZE && AllAlphabet(a) && '\0' !in a
  {
    var payload := [AGENT_ADDRESS_VERSION_BYTE] + keyHash;
    var rest := keyHash + Checksum(sha, payload);
    assert payload + Checksum(sha, payload) == [AGENT_ADDRESS_VERSION_BYTE] + rest;
    Version61Encoding(rest);
  }

  lemma Version61Encoding(rest: seq<byte>)
    requires |rest| == 24
    ensures var a := Encode([AGENT_ADDRESS_VERSION_BYTE] + rest);
            |a| == MAX_ADDRESS_SIZE && AllAlphabet(a) && '\0' !in a
  {
    var all := [AGENT_ADDRESS_VERSION_BYTE] + rest;
    Version61Length(58, 256, 33, rest);
    assert LeadingZeroes(all) == 0;
    assert |Rebase(256, 58, all)| == 34;
    CharsInverse(Rebase(256, 58, all), Encode(all));
    forall c | c in Encode(all) ensures c != '\0' {
      AlphabetNotSpace(c);
    }
  }

  lemma Version61Length(b58: nat, b256: nat, k: nat, rest: seq<nat>)
    requires b58 == 58 && b256 == 256 && k == 33 && |rest| == 24 && DigitsBelow(b256, rest)
    ensures |Digits(b58, Value(b256, [61] + rest))| == k + 1
  {
    ValueCons(b256, 61, rest);
    ValueBelow(b256, rest);
    PowersAround(b58, b256, k, |rest|);
    DigitsLength(b58, Value(b256, [61] + rest), k);
  }
}
