/** The character rules of message parameters (src/validation.c), as loops and as what the loops decide. */
module Validation {
  import opened Base

  const MAX_ID: nat := 20
  const MAX_SECRET: nat := 128
  const MAX_NAME: nat := 20
  const MAX_CONTENT: nat := 60000

  /** `isalnum` in the C locale; bytes above 0x7F are negative as `char` and are refused. */
  predicate Alnum(c: byte) {
    0x30 <= c <= 0x39 || 0x41 <= c <= 0x5A || 0x61 <= c <= 0x7A
  }

  predicate SecretByte(c: byte) {
    Alnum(c) || c == 0x5F || c == 0x2D
  }

  /** Also accepts the dot, which the published grammar of identifiers does not. */
  predicate IdByte(c: byte) {
    SecretByte(c) || c == 0x2E
  }

  predicate NameByte(c: byte) {
    0x21 <= c <= 0x7E
  }

  predicate ContentByte(c: byte) {
    c == LF || 0x20 <= c <= 0x7E
  }

  predicate ValidId(s: Bytes) {
    1 <= |s| <= MAX_ID && forall i :: 0 <= i < |s| ==> IdByte(s[i])
  }

  predicate ValidSecret(s: Bytes) {
    1 <= |s| <= MAX_SECRET && forall i :: 0 <= i < |s| ==> SecretByte(s[i])
  }

  predicate ValidName(s: Bytes) {
    1 <= |s| <= MAX_NAME && forall i :: 0 <= i < |s| ==> NameByte(s[i])
  }

  predicate ValidContent(s: Bytes) {
    1 <= |s| && forall i :: 0 <= i < |s| ==> ContentByte(s[i])
  }

  // ----- the same rules, written out -----

  predicate SecretCharacter(c: char) {
    c in {
    'A', 'B', 'C', 'D', 'E', 'F', 'G', 'H', 'I', 'J', 'K', 'L', 'M', 'N', 'O', 'P', 'Q', 'R', 'S', 'T', 'U',
    'V', 'W', 'X', 'Y', 'Z', 'a', 'b', 'c', 'd', 'e', 'f', 'g', 'h', 'i', 'j', 'k', 'l', 'm', 'n', 'o', 'p',
    'q', 'r', 's', 't', 'u', 'v', 'w', 'x', 'y', 'z', '0', '1', '2', '3', '4', '5', '6', '7', '8', '9', '_',
    '-' }
  }

  predicate IdCharacter(c: char) {
    c in {
    'A', 'B', 'C', 'D', 'E', 'F', 'G', 'H', 'I', 'J', 'K', 'L', 'M', 'N', 'O', 'P', 'Q', 'R', 'S', 'T', 'U',
    'V', 'W', 'X', 'Y', 'Z', 'a', 'b', 'c', 'd', 'e', 'f', 'g', 'h', 'i', 'j', 'k', 'l', 'm', 'n', 'o', 'p',
    'q', 'r', 's', 't', 'u', 'v', 'w', 'x', 'y', 'z', '0', '1', '2', '3', '4', '5', '6', '7', '8', '9', '_',
    '-', '.' }
  }

  lemma IdByteExactly(c: byte)
    ensures IdByte(c) <==> IdCharacter(c as char)
  {
  }

  lemma SecretByteExactly(c: byte)
    ensures SecretByte(c) <==> SecretCharacter(c as char)
  {
  }

  lemma ValidIdExactly(s: Bytes)
    ensures ValidId(s) <==> 1 <= |s| <= 20 && forall i :: 0 <= i < |s| ==> IdCharacter(s[i] as char)
  {
    forall i | 0 <= i < |s| ensures IdByte(s[i]) <==> IdCharacter(s[i] as char) {
      IdByteExactly(s[i]);
    }
  }

  lemma ValidSecretExactly(s: Bytes)
    ensures ValidSecret(s) <==> 1 <= |s| <= 128 && forall i :: 0 <= i < |s| ==> SecretCharacter(s[i] as char)
  {
    forall i | 0 <= i < |s| ensures SecretByte(s[i]) <==> SecretCharacter(s[i] as char) {
      SecretByteExactly(s[i]);
    }
  }

  lemma ValidNameExactly(s: Bytes)
    ensures ValidName(s) <==> 1 <= |s| <= 20 && forall i :: 0 <= i < |s| ==> '!' <= s[i] as char <= '~'
  {
  }

  lemma ValidContentExactly(s: Bytes)
    ensures ValidContent(s) <==>
      1 <= |s| && forall i :: 0 <= i < |s| ==> s[i] as char == '\n' || ' ' <= s[i] as char <= '~'
  {
  }

  // ----- the loops -----

  method ValidateId(id: CString) returns (ok: bool)
    ensures ok <==> ValidId(id)
    ensures ok <==> 1 <= |id| <= 20 && forall i :: 0 <= i < |id| ==> IdCharacter(id[i] as char)
  {
    ValidIdExactly(id);
    if |id| == 0 || |id| > MAX_ID {
      return false;
    }
    for i := 0 to |id|
      invariant forall k :: 0 <= k < i ==> IdByte(id[k])
    {
      var c := id[i];
      if !(Alnum(c) || c == 0x5F || c == 0x2D || c == 0x2E) {
        return false;
      }
    }
    return true;
  }

  method ValidateSecret(secret: CString) returns (ok: bool)
    ensures ok <==> ValidSecret(secret)
    ensures ok <==> 1 <= |secret| <= 128 && forall i :: 0 <= i < |secret| ==> SecretCharacter(secret[i] as char)
  {
    ValidSecretExactly(secret);
    if |secret| == 0 || |secret| > MAX_SECRET {
      return false;
    }
    for i := 0 to |secret|
      invariant forall k :: 0 <= k < i ==> SecretByte(secret[k])
    {
      var c := secret[i];
      if !(Alnum(c) || c == 0x5F || c == 0x2D) {
        return false;
      }
    }
    return true;
  }

  method ValidateDisplayName(name: CString) returns (ok: bool)
    ensures ok <==> ValidName(name)
    ensures ok <==> 1 <= |name| <= 20 && forall i :: 0 <= i < |name| ==> '!' <= name[i] as char <= '~'
  {
    ValidNameExactly(name);
    if |name| == 0 || |name| > MAX_NAME {
      return false;
    }
    for i := 0 to |name|
      invariant forall k :: 0 <= k < i ==> NameByte(name[k])
    {
      var c := name[i];
      if c < 0x21 || c > 0x7E {
        return false;
      }
    }
    return true;
  }

  method ValidateMessageContent(content: CString) returns (ok: bool)
    ensures ok <==> ValidContent(content)
    ensures ok <==>
      1 <= |content| && forall i :: 0 <= i < |content| ==> content[i] as char == '\n' || ' ' <= content[i] as char <= '~'
  {
    ValidContentExactly(content);
    if |content| == 0 {
      return false;
    }
    for i := 0 to |content|
      invariant forall k :: 0 <= k < i ==> ContentByte(content[k])
    {
      var c := content[i];
      if !(c == 0x0A || c == 0x20 || (c >= 0x21 && c <= 0x7E)) {
        return false;
      }
    }
    return true;
  }
}
