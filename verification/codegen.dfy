/** Challenge-code generation (game.service.ts generateCode). The source draws
    each character with Math.floor(Math.random() * 36); here the draws are a
    parameter, one index in [0, 36) per character. */
module CodeGen {
  import opened Difficulty

  /** One draw of the random source: an index into the alphabet. */
  type Draw = i: int | 0 <= i < 36

  /** The 36-character alphabet: 'A'..'Z' at indices 0..25, '0'..'9' at 26..35. */
  const Alphabet: string := "ABCDEFGHIJKLMNOPQRSTUVWXYZ0123456789"

  /** The character the alphabet holds at index d, computed from its position. */
  function CharAt(d: Draw): char
  {
    if d < 26 then ('A' as int + d) as char else ('0' as int + (d - 26)) as char
  }

  predicate IsCodeChar(c: char)
  {
    'A' <= c <= 'Z' || '0' <= c <= '9'
  }

  predicate InAlphabet(s: string)
  {
    forall i :: 0 <= i < |s| ==> IsCodeChar(s[i])
  }

  /** The alphabet literal is exactly the positional description above. */
  lemma AlphabetLayout()
    ensures |Alphabet| == 36
    ensures forall d: Draw :: Alphabet[d] == CharAt(d)
    ensures forall c :: c in Alphabet <==> IsCodeChar(c)
  {
    forall d: Draw ensures Alphabet[d] == CharAt(d) {
      if d < 26 {
        assert Alphabet[..26] == "ABCDEFGHIJKLMNOPQRSTUVWXYZ";
        assert Alphabet[d] == Alphabet[..26][d];
      } else {
        assert Alphabet[26..] == "0123456789";
        assert Alphabet[d] == Alphabet[26..][d - 26];
      }
    }
    forall c | IsCodeChar(c) ensures c in Alphabet {
      var d: Draw := IndexOf(c);
      assert Alphabet[d] == CharAt(d) == c;
    }
  }

  /** The inverse of CharAt on code characters. */
  function IndexOf(c: char): (d: Draw)
    requires IsCodeChar(c)
    ensures CharAt(d) == c
  {
    if 'A' <= c <= 'Z' then c as int - 'A' as int else 26 + (c as int - '0' as int)
  }

  /** generateCode: one alphabet character per draw, as many as the tier's length. */
  function GenerateCode(difficulty: string, draws: seq<Draw>): (code: string)
    requires CodeLength(difficulty) <= |draws|
    ensures |code| == CodeLength(difficulty)
    ensures InAlphabet(code)
    ensures forall i :: 0 <= i < |code| ==> code[i] in Alphabet
  {
    AlphabetLayout();
    seq(CodeLength(difficulty), i requires 0 <= i < CodeLength(difficulty) => Alphabet[draws[i]])
  }

  /** The draws that produce a given code. */
  function DrawsOf(code: string): (draws: seq<Draw>)
    requires InAlphabet(code)
    ensures |draws| == |code|
  {
    seq(|code|, i requires 0 <= i < |code| => IndexOf(code[i]))
  }

  /** Every code of the tier's length over the alphabet is generated by some
      draws (the draws DrawsOf returns). */
  lemma GenerateCodeOnto(difficulty: string, code: string)
    requires |code| == CodeLength(difficulty)
    requires InAlphabet(code)
    ensures GenerateCode(difficulty, DrawsOf(code)) == code
  {
    AlphabetLayout();
    var g := GenerateCode(difficulty, DrawsOf(code));
    forall i | 0 <= i < |code| ensures g[i] == code[i] {
      assert g[i] == Alphabet[IndexOf(code[i])] == CharAt(IndexOf(code[i]));
    }
  }

  /** Distinct draws give distinct codes: together with GenerateCodeOnto this
      makes generation a bijection from draw sequences onto codes, so uniform
      draws give uniformly distributed codes. */
  lemma GenerateCodeInjective(difficulty: string, a: seq<Draw>, b: seq<Draw>)
    requires CodeLength(difficulty) <= |a| && CodeLength(difficulty) <= |b|
    requires GenerateCode(difficulty, a) == GenerateCode(difficulty, b)
    ensures a[..CodeLength(difficulty)] == b[..CodeLength(difficulty)]
  {
    AlphabetLayout();
    var n := CodeLength(difficulty);
    forall i | 0 <= i < n ensures a[i] == b[i] {
      assert GenerateCode(difficulty, a)[i] == GenerateCode(difficulty, b)[i];
      assert CharAt(a[i]) == CharAt(b[i]);
      assert IndexOf(CharAt(a[i])) == a[i];
      assert IndexOf(CharAt(b[i])) == b[i];
    }
  }
}
