/** Go strings as a range loop reads them. */
module GoStrings {
  const REPLACEMENT := '\U{FFFD}'

  /** One step of a range loop: a Unicode scalar value, or a byte that is not part of the encoding
      of one. */
  datatype Unit = Rune(c: char) | BadByte

  type GoString = seq<Unit>

  /** The characters the loop sees: the replacement character for every bad byte. */
  function Runes(s: GoString): string {
    seq(|s|, i requires 0 <= i < |s| => if s[i].Rune? then s[i].c else REPLACEMENT)
  }

  predicate IsValid(s: GoString) {
    forall i :: 0 <= i < |s| ==> s[i].Rune?
  }

  /** The string with exactly these characters. */
  function FromRunes(text: string): GoString {
    seq(|text|, i requires 0 <= i < |text| => Rune(text[i]))
  }

  /** A string is what its characters spell exactly when all of its bytes are valid. */
  lemma ValidIff(s: GoString)
    ensures FromRunes(Runes(s)) == s <==> IsValid(s)
    ensures |Runes(s)| == |s|
  {
    var r := FromRunes(Runes(s));
    if IsValid(s) {
      assert forall i :: 0 <= i < |s| ==> r[i] == s[i];
    } else {
      var i :| 0 <= i < |s| && !s[i].Rune?;
      assert r[i].Rune?;
    }
  }
}
