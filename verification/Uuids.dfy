/** Uuids as texts: how a uuid column compares with the text of a request. */
module Uuids {
  import opened DecimalText
  import TextReaders

  predicate UuidChar(c: char) { IsDigit(c) || 'a' <= c <= 'f' || 'A' <= c <= 'F' || c == '-' }

  /** The text form of a UUID, in either letter case. */
  predicate UuidText(s: string) { |s| == 36 && forall i | 0 <= i < 36 :: UuidChar(s[i]) }

  /** A stored id reads in lower case. */
  predicate StoredUuid(s: string) { UuidText(s) && TextReaders.ToLower(s) == s }

  /** A uuid column matches the text of a request in any letter case. */
  predicate SameUuid(text: string, id: string) { TextReaders.ToLower(text) == id }

  // ── two spellings of one id ──────────────────────────────────────────────

  /** A UUID whose digits are all the same. */
  function Repeated(digit: char): string {
    seq(36, i => if i == 8 || i == 13 || i == 18 || i == 23 then '-' else digit)
  }

  const STORED_ID: string := Repeated('a')
  const UPPER_ID: string := Repeated('A')

  lemma SpellingsOfOneId()
    ensures UuidText(UPPER_ID) && StoredUuid(STORED_ID)
    ensures TextReaders.ToLower(UPPER_ID) == STORED_ID && UPPER_ID != STORED_ID
  {
    assert UPPER_ID[0] == 'A' && STORED_ID[0] == 'a';
  }
}
