/**
 * Primary keys of the three tables: every column default builds the key from a
 * one-letter kind prefix and the first 8 characters of `uuid.uuid4().hex`.
 */
module Ids {

  /** A character of `uuid.UUID.hex`, which is lower-case hexadecimal. */
  predicate IsHexDigit(c: char) {
    '0' <= c <= '9' || 'a' <= c <= 'f'
  }

  /** The text of `uuid.uuid4().hex`: 32 lower-case hexadecimal characters. */
  predicate IsUuidHex(h: string) {
    |h| == 32 && forall k :: 0 <= k < |h| ==> IsHexDigit(h[k])
  }

  /** A generated key: the prefix followed by exactly 8 hexadecimal characters. */
  predicate IsGeneratedId(id: string, prefix: char) {
    |id| == 9 && id[0] == prefix && forall k :: 1 <= k < |id| ==> IsHexDigit(id[k])
  }

  /** `f"{prefix}{uuid.uuid4().hex[:8]}"`, with the random hex text passed in. */
  function NewId(prefix: char, uuidHex: string): (id: string)
    requires IsUuidHex(uuidHex)
    ensures IsGeneratedId(id, prefix)
    ensures id[1..] == uuidHex[..8]
  {
    [prefix] + uuidHex[..8]
  }

  /** Two generated keys of one kind are equal exactly when their first 8 hex characters are. */
  lemma NewIdCollision(prefix: char, h1: string, h2: string)
    requires IsUuidHex(h1) && IsUuidHex(h2)
    ensures NewId(prefix, h1) == NewId(prefix, h2) <==> h1[..8] == h2[..8]
  {
    if NewId(prefix, h1) == NewId(prefix, h2) {
      assert NewId(prefix, h1)[1..] == NewId(prefix, h2)[1..];
    }
  }
}
