/**
 * `random_pw` (vmscripts/lib/virtual_machine.rb:404-420): twelve characters
 * drawn from the lower-case letters and digits without the mistakeable
 * i, o, l, 0 and 1, each upcased on a coin toss.  The random draws are an
 * input.
 */
module Passwords {

  const PasswdLength: nat := 12

  /** ('a'..'z').to_a + ('0'..'9').to_a - %w(i o 0 1 l 0), in that order. */
  const PwChars: string := "abcdefghjkmnpqrstuvwxyz23456789"

  type CharIndex = n: nat | n < 31

  /** One turn of the loop: `chars.rand` picks `index`, `rand 2 > 0` is `upcase`. */
  datatype Draw = Draw(index: CharIndex, upcase: bool)

  type PwDraws = s: seq<Draw> | |s| == PasswdLength
    witness [Draw(0, false), Draw(0, false), Draw(0, false), Draw(0, false), Draw(0, false), Draw(0, false),
             Draw(0, false), Draw(0, false), Draw(0, false), Draw(0, false), Draw(0, false), Draw(0, false)]

  /** Characters easily mistaken for one another, in either case. */
  const Mistakeable: set<char> := {'i', 'I', 'o', 'O', 'l', 'L', '0', '1'}

  /** Each pool character is a lower-case letter or a digit, and none is mistakeable. */
  lemma {:induction false} PwCharsClean(k: nat)
    requires k < |PwChars|
    ensures 'a' <= PwChars[k] <= 'z' || '2' <= PwChars[k] <= '9'
    ensures PwChars[k] !in Mistakeable
  {
    if k < 23 {
      assert 'a' <= PwChars[k] <= 'z';
    } else {
      assert '2' <= PwChars[k] <= '9';
    }
  }

  /** Conversely, every lower-case letter and digit that is not mistakeable is in the pool. */
  lemma PwCharsComplete(c: char)
    requires 'a' <= c <= 'z' || '0' <= c <= '9'
    requires c !in Mistakeable
    ensures c in PwChars
  {
    if 'a' <= c <= 'z' {
      var k := if c < 'i' then c as int - 'a' as int
        else if c < 'l' then c as int - 'a' as int - 1
        else if c < 'o' then c as int - 'a' as int - 2
        else c as int - 'a' as int - 3;
      assert PwChars[k] == c;
    } else {
      assert PwChars[c as int - '2' as int + 23] == c;
    }
  }

  /** String#upcase on one character. */
  function Upcase(c: char): char
  {
    if 'a' <= c <= 'z' then (c as int - 32) as char else c
  }

  function DrawChar(d: Draw): char
  {
    if d.upcase then Upcase(PwChars[d.index]) else PwChars[d.index]
  }

  /** The password a sequence of draws produces. */
  function Password(draws: seq<Draw>): string
    decreases |draws|
  {
    if |draws| == 0 then "" else Password(draws[..|draws| - 1]) + [DrawChar(draws[|draws| - 1])]
  }

  /** `random_pw`: the accumulator loop over `passwd_length.times`. */
  method RandomPw(draws: PwDraws) returns (password: string)
    ensures password == Password(draws)
  {
    password := "";
    var n := 0;
    while n < PasswdLength
      invariant 0 <= n <= PasswdLength
      invariant password == Password(draws[..n])
    {
      assert draws[..n + 1][..n] == draws[..n];
      var d := draws[n];
      if d.upcase {
        password := password + [Upcase(PwChars[d.index])];
      } else {
        password := password + [PwChars[d.index]];
      }
      n := n + 1;
    }
    assert draws[..n] == draws;
  }

  /** A letter or a digit from 2 to 9 that is not mistakeable. */
  predicate Allowed(c: char)
  {
    ('a' <= c <= 'z' || 'A' <= c <= 'Z' || '2' <= c <= '9') && c !in Mistakeable
  }

  lemma DrawCharAllowed(d: Draw)
    ensures Allowed(DrawChar(d))
  {
    PwCharsClean(d.index);
  }

  /**
   * A password has one character per draw, each a letter or a digit from 2
   * to 9, and never any of i, I, o, O, l, L, 0 or 1.
   */
  lemma {:induction false} PasswordShape(draws: seq<Draw>)
    ensures |Password(draws)| == |draws|
    ensures forall i :: 0 <= i < |draws| ==> Password(draws)[i] == DrawChar(draws[i]) && Allowed(Password(draws)[i])
    decreases |draws|
  {
    if |draws| > 0 {
      var init := draws[..|draws| - 1];
      PasswordShape(init);
      forall i | 0 <= i < |draws|
        ensures Password(draws)[i] == DrawChar(draws[i]) && Allowed(Password(draws)[i])
      {
        DrawCharAllowed(draws[i]);
        if i < |draws| - 1 {
          assert Password(draws)[i] == Password(init)[i];
          assert init[i] == draws[i];
        }
      }
    }
  }
}
