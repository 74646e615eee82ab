/** The names the API admits. */
module Names {
  import opened Prelude

  predicate Alphanumeric(b: Byte) {
    '0' as int <= b <= '9' as int || 'A' as int <= b <= 'Z' as int || 'a' as int <= b <= 'z' as int
  }

  predicate NameByte(b: Byte) {
    Alphanumeric(b) || b == '-' as int || b == '_' as int
  }

  predicate KeyByte(b: Byte) {
    NameByte(b) || b == '.' as int
  }

  /** `valid_project`, and `valid_name` of the command line: at most 64 octets of `[A-Za-z0-9_-]`. */
  predicate ValidProject(name: Bytes) {
    0 < |name| <= 64 && forall i :: 0 <= i < |name| ==> NameByte(name[i])
  }

  /** `valid_key` on the server and `valid_secret_key` on the client. */
  predicate ValidKey(key: Bytes) {
    0 < |key| <= 128 && forall i :: 0 <= i < |key| ==> KeyByte(key[i])
  }

  /** The names the API documents, in ASCII: 1 to 64 octets of `[A-Za-z0-9_-]`, for keys 1 to 128 and the dot. */
  lemma NamesAsDocumented(s: Bytes)
    ensures ValidProject(s) <==>
            1 <= |s| <= 64 && forall i :: 0 <= i < |s| ==>
              65 <= s[i] <= 90 || 97 <= s[i] <= 122 || 48 <= s[i] <= 57 || s[i] == 95 || s[i] == 45
    ensures ValidKey(s) <==>
            1 <= |s| <= 128 && forall i :: 0 <= i < |s| ==>
              65 <= s[i] <= 90 || 97 <= s[i] <= 122 || 48 <= s[i] <= 57 || s[i] == 95 || s[i] == 45 || s[i] == 46
  {
    forall i | 0 <= i < |s|
      ensures NameByte(s[i]) <==>
              65 <= s[i] <= 90 || 97 <= s[i] <= 122 || 48 <= s[i] <= 57 || s[i] == 95 || s[i] == 45
      ensures KeyByte(s[i]) <==> NameByte(s[i]) || s[i] == 46
    {
    }
  }
}
