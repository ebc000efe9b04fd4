/** The password-record format of `src/auth.js`: a record is the hex salt,
    a `$`, and the hex of the key derived from the password and that salt.
    The key-derivation function (PBKDF2 with SHA-512 in the source) and the
    random salt are inputs: the model fixes only what is done with them. */
module Auth {
  import opened Js
  import opened Text

  newtype byte = x: int | 0 <= x < 256

  /** Length in bytes of the derived key. */
  const HashBytes: nat := 32
  /** Length in bytes of the random salt. */
  const SaltBytes: nat := 16
  /** PBKDF2 work factor. */
  const Iterations: nat := 872791
  /** PBKDF2 digest name. */
  const Digest: string := "sha512"

  /** The record's field separator. */
  const Separator: char := '$'

  /** `pbkdf2Sync(password, salt, iterations, keyLength, digest)`. */
  type Kdf = (string, string, nat, nat, string) -> seq<byte>

  predicate IsHexDigit(c: char)
  {
    '0' <= c <= '9' || 'a' <= c <= 'f'
  }

  /** The lower-case hex digit of a nibble. */
  function HexDigit(n: nat): (c: char)
    requires n < 16
    ensures IsHexDigit(c)
  {
    if n < 10 then ('0' as int + n) as char else ('a' as int + n - 10) as char
  }

  /** The nibble a lower-case hex digit stands for. */
  function DigitValue(c: char): (v: Option<nat>)
    ensures v.Some? <==> IsHexDigit(c)
    ensures v.Some? ==> v.value < 16 && HexDigit(v.value) == c
  {
    if '0' <= c <= '9' then Some(c as int - '0' as int)
    else if 'a' <= c <= 'f' then Some(c as int - 'a' as int + 10)
    else None
  }

  /** `buffer.toString("hex")`: two lower-case digits per byte, high nibble first. */
  function ToHex(bytes: seq<byte>): (s: string)
    ensures |s| == 2 * |bytes|
    ensures forall i :: 0 <= i < |s| ==> IsHexDigit(s[i])
    ensures Separator !in s
  {
    if |bytes| == 0 then ""
    else
      var b := bytes[0] as int;
      [HexDigit(b / 16), HexDigit(b % 16)] + ToHex(bytes[1..])
  }

  /** Reading lower-case hex text back into bytes; `None` for an odd length
      or a character that is not a lower-case hex digit. */
  function FromHex(s: string): (r: Option<seq<byte>>)
    ensures r.Some? ==> 2 * |r.value| == |s|
    decreases |s|
  {
    if |s| == 0 then Some([])
    else if |s| == 1 then None
    else
      match (DigitValue(s[0]), DigitValue(s[1]), FromHex(s[2..]))
      case (Some(hi), Some(lo), Some(rest)) => Some([(hi * 16 + lo) as byte] + rest)
      case _ => None
  }

  /** Decoding undoes the hex encoding. */
  lemma {:induction false} FromHexToHex(bytes: seq<byte>)
    ensures FromHex(ToHex(bytes)) == Some(bytes)
  {
    if |bytes| > 0 {
      var b := bytes[0] as int;
      var s := ToHex(bytes);
      FromHexToHex(bytes[1..]);
      assert s[2..] == ToHex(bytes[1..]);
      assert DigitValue(s[0]) == Some(b / 16);
      assert DigitValue(s[1]) == Some(b % 16);
      assert [bytes[0]] + bytes[1..] == bytes;
    }
  }

  /** Encoding undoes the decoding: lower-case hex text is exactly the
      image of the encoding. */
  lemma {:induction false} ToHexFromHex(s: string)
    requires FromHex(s).Some?
    ensures ToHex(FromHex(s).value) == s
    decreases |s|
  {
    if |s| > 0 {
      var hi := DigitValue(s[0]).value;
      var lo := DigitValue(s[1]).value;
      var rest := FromHex(s[2..]).value;
      ToHexFromHex(s[2..]);
      var b := (hi * 16 + lo) as byte;
      assert FromHex(s).value == [b] + rest;
      assert ([b] + rest)[1..] == rest;
      assert b as int / 16 == hi && b as int % 16 == lo;
      assert s == [s[0], s[1]] + s[2..];
    }
  }

  /** Different bytes give different hex text. */
  lemma ToHexInjective(a: seq<byte>, b: seq<byte>)
    requires ToHex(a) == ToHex(b)
    ensures a == b
  {
    FromHexToHex(a);
    FromHexToHex(b);
  }

  /** The derived key for a password and a salt text, with the record's
      fixed parameters. */
  function DerivedKey(kdf: Kdf, password: string, salt: string): seq<byte>
  {
    kdf(password, salt, Iterations, HashBytes, Digest)
  }

  /** `hashPassword(password)`, with the bytes `randomBytes(saltBytes)`
      produced as `salt`: the record splits back into the salt's hex and
      the hex of the key derived from the password and that hex salt. */
  function HashPassword(kdf: Kdf, password: string, salt: seq<byte>): (combined: string)
    ensures Split(combined, Separator) == [ToHex(salt), ToHex(DerivedKey(kdf, password, ToHex(salt)))]
    ensures |combined| == 2 * |salt| + 1 + 2 * |DerivedKey(kdf, password, ToHex(salt))|
  {
    var saltText := ToHex(salt);
    var hash := ToHex(DerivedKey(kdf, password, saltText));
    SplitPair(saltText, hash, Separator);
    assert Join([saltText, hash], Separator) == saltText + [Separator] + hash by {
      assert [saltText, hash][1..] == [hash];
    }
    Join([saltText, hash], Separator)
  }

  /** `verifyPassword(password, combined)`: the first piece of the record is
      the salt, the second (`undefined` when there is none) must equal the
      hex of the key derived again from the candidate and that salt. */
  function VerifyPassword(kdf: Kdf, password: string, combined: string): (ok: bool)
    ensures ok ==> Separator in combined
    ensures ok ==>
      var parts := Split(combined, Separator);
      parts[1] == ToHex(DerivedKey(kdf, password, parts[0]))
  {
    var parts := Split(combined, Separator);
    var salt := parts[0];
    var originalHash := if |parts| >= 2 then Str(parts[1]) else Undefined;
    var hash := ToHex(DerivedKey(kdf, password, salt));
    assert |parts| >= 2 ==> Separator in combined by {
      if |parts| >= 2 && Separator !in combined {
        SplitFree(combined, Separator);
      }
    }
    Str(hash) == originalHash
  }

  /** With the configured sizes the record is 32 hex digits of salt, the
      separator, and 64 hex digits of derived key. */
  lemma HashPasswordShape(kdf: Kdf, password: string, salt: seq<byte>)
    requires |salt| == SaltBytes
    requires |DerivedKey(kdf, password, ToHex(salt))| == HashBytes
    ensures var combined := HashPassword(kdf, password, salt);
      && |combined| == 97
      && combined[32] == Separator
      && |Split(combined, Separator)[0]| == 2 * SaltBytes
      && |Split(combined, Separator)[1]| == 2 * HashBytes
  {
  }

  /** A record checks the candidate exactly when its second piece is the
      hex of the key derived from the candidate and its first piece. */
  lemma VerifyAgainstRecord(kdf: Kdf, password: string, salt: string, hash: string)
    requires Separator !in salt && Separator !in hash
    ensures VerifyPassword(kdf, password, salt + [Separator] + hash)
            <==> hash == ToHex(DerivedKey(kdf, password, salt))
  {
    SplitPair(salt, hash, Separator);
  }

  /** Pieces after the second are ignored. */
  lemma VerifyIgnoresTrailingPieces(kdf: Kdf, password: string, salt: string, hash: string, rest: string)
    requires Separator !in salt && Separator !in hash
    ensures VerifyPassword(kdf, password, salt + [Separator] + hash + [Separator] + rest)
            == VerifyPassword(kdf, password, salt + [Separator] + hash)
  {
    SplitPrefix(salt, hash, rest, Separator);
    SplitPair(salt, hash, Separator);
  }

  /** A record without a separator never checks. */
  lemma VerifyNeedsSeparator(kdf: Kdf, password: string, combined: string)
    requires Separator !in combined
    ensures !VerifyPassword(kdf, password, combined)
  {
  }

  /** Round trip: a record made from a password checks that password. */
  lemma VerifyHashRoundTrip(kdf: Kdf, password: string, salt: seq<byte>)
    ensures VerifyPassword(kdf, password, HashPassword(kdf, password, salt))
  {
  }

  /** A record made from one password checks another exactly when the two
      derive the same key under the record's salt. */
  lemma VerifyOtherPassword(kdf: Kdf, password: string, candidate: string, salt: seq<byte>)
    ensures VerifyPassword(kdf, candidate, HashPassword(kdf, password, salt))
            <==> DerivedKey(kdf, candidate, ToHex(salt)) == DerivedKey(kdf, password, ToHex(salt))
  {
    var combined := HashPassword(kdf, password, salt);
    if VerifyPassword(kdf, candidate, combined) {
      ToHexInjective(DerivedKey(kdf, candidate, ToHex(salt)), DerivedKey(kdf, password, ToHex(salt)));
    }
  }
}
