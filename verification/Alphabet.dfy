/** The ASCII letters, written out. */
module Alphabet {
  const LETTERS: string := "abcdefghijklmnopqrstuvwxyz"
  const CAPITALS: string := "ABCDEFGHIJKLMNOPQRSTUVWXYZ"

  lemma LettersInOrder()
    ensures forall k :: 0 <= k < 26 ==> LETTERS[k] as int == 'a' as int + k && CAPITALS[k] as int == 'A' as int + k
  {
  }
}
