/**
 * The password generator behind `POST /api/generate-password`
 * (server/server.js). The requested length is validated first; only then are
 * that many random bytes drawn, and each byte picks the character at index
 * `byte % 90` of a fixed 90-character alphabet, appended in draw order.
 *
 * The secure random source is modelled as the stream of bytes it would
 * produce: `entropy`, of which the handler consumes a prefix.
 */
module Generator {

  import opened Wrappers
  import Scoring

  newtype byte = x: int | 0 <= x < 256

  const LowerLetters: string := "abcdefghijklmnopqrstuvwxyz"
  const UpperLetters: string := "ABCDEFGHIJKLMNOPQRSTUVWXYZ"
  const Digits: string := "0123456789"
  const CharsetSymbols: string := "!@#$%^&*()-_=+[]{};:,.<>/?`~"

  /** The generator's alphabet, the source's 90-character literal written as its four runs. */
  const Charset: string := LowerLetters + UpperLetters + Digits + CharsetSymbols

  const MinGenerateLength: int := 6

  const LengthMessage: string := "Length must be an integer >= 6"

  /** The response of the handler: `{success: true, password}` or `{success: false, message}`. */
  datatype GenerateResponse = Generated(password: string) | Rejected(message: string)

  /** The HTTP status that goes with each response. */
  function Status(r: GenerateResponse): (code: int)
    ensures code == 200 <==> r.Generated?
    ensures code == 400 <==> r.Rejected?
  {
    if r.Generated? then 200 else 400
  }

  /** `charset.charAt(b % charset.length)`. */
  function CharFor(b: byte): char
  {
    Charset[b as int % |Charset|]
  }

  /**
   * The password that appending `CharFor` of each byte, in order, produces
   * from the empty string.
   */
  function Encode(bytes: seq<byte>): (r: string)
    ensures |r| == |bytes|
    ensures forall i :: 0 <= i < |bytes| ==> r[i] == Charset[bytes[i] as int % 90]
  {
    if bytes == [] then "" else Encode(bytes[..|bytes| - 1]) + [CharFor(bytes[|bytes| - 1])]
  }

  /** The `for` loop that builds the password from the drawn bytes. */
  method MapBytes(bytes: seq<byte>) returns (password: string)
    ensures password == Encode(bytes)
  {
    password := "";
    for i := 0 to |bytes|
      invariant password == Encode(bytes[..i])
    {
      var idx := bytes[i] as int % |Charset|;
      password := password + [Charset[idx]];
      assert bytes[..i + 1][..i] == bytes[..i];
    }
    assert bytes[..|bytes|] == bytes;
  }

  /**
   * The handler. `length` is `parseInt(length, 10)`, `None` standing for NaN.
   * `drawn` is the number of bytes taken from the random source: none when
   * the length is rejected.
   */
  method GeneratePassword(length: Option<int>, entropy: seq<byte>) returns (response: GenerateResponse, drawn: nat)
    requires length.Some? && length.value >= MinGenerateLength ==> length.value <= |entropy|
    ensures response.Rejected? <==> length.None? || length.value < MinGenerateLength
    ensures response.Rejected? ==> drawn == 0 && response.message == LengthMessage && Status(response) == 400
    ensures response.Generated? ==> drawn == length.value && response.password == Encode(entropy[..drawn])
    ensures response.Generated? ==> Status(response) == 200
  {
    if length.None? || length.value < MinGenerateLength {
      return Rejected(LengthMessage), 0;
    }
    var n := length.value;
    var bytes := entropy[..n];
    drawn := n;
    var password := MapBytes(bytes);
    response := Generated(password);
  }

  // ---------------------------------------------------------------------
  // Properties
  // ---------------------------------------------------------------------

  /** Every accepted request yields exactly the requested number of characters, all from the alphabet. */
  lemma GeneratedShape(n: int, entropy: seq<byte>)
    requires MinGenerateLength <= n <= |entropy|
    ensures |Encode(entropy[..n])| == n
    ensures forall i :: 0 <= i < n ==> Encode(entropy[..n])[i] in Charset
  {
    var p := Encode(entropy[..n]);
    forall i | 0 <= i < n ensures p[i] in Charset {
      assert p[i] == Charset[entropy[i] as int % 90];
    }
  }

  /** Each run of the alphabet is in code-point order or free of repeats, and the runs are disjoint. */
  lemma RunFacts()
    ensures forall i :: 0 <= i < 26 ==> LowerLetters[i] as int == 'a' as int + i
    ensures forall i :: 0 <= i < 26 ==> UpperLetters[i] as int == 'A' as int + i
    ensures forall i :: 0 <= i < 10 ==> Digits[i] as int == '0' as int + i
    ensures forall i :: 0 <= i < |CharsetSymbols| ==>
              !('a' <= CharsetSymbols[i] <= 'z' || 'A' <= CharsetSymbols[i] <= 'Z' || '0' <= CharsetSymbols[i] <= '9')
    ensures forall i, j :: 0 <= i < j < |CharsetSymbols| ==> CharsetSymbols[i] != CharsetSymbols[j]
  {
  }

  /** The character at position `i` of the alphabet, by run. */
  lemma CharsetAt(i: int)
    requires 0 <= i < |Charset|
    ensures i < 26 ==> Charset[i] as int == 'a' as int + i
    ensures 26 <= i < 52 ==> Charset[i] as int == 'A' as int + (i - 26)
    ensures 52 <= i < 62 ==> Charset[i] as int == '0' as int + (i - 52)
    ensures 62 <= i ==> Charset[i] == CharsetSymbols[i - 62]
    ensures 62 <= i ==> !('a' <= Charset[i] <= 'z' || 'A' <= Charset[i] <= 'Z' || '0' <= Charset[i] <= '9')
  {
    RunFacts();
    if i < 26 {
      assert Charset[i] == LowerLetters[i];
    } else if i < 52 {
      assert Charset[i] == UpperLetters[i - 26];
    } else if i < 62 {
      assert Charset[i] == Digits[i - 52];
    } else {
      assert Charset[i] == CharsetSymbols[i - 62];
    }
  }

  /** No character occurs twice in the alphabet. */
  lemma CharsetDistinct()
    ensures |Charset| == 90
    ensures forall i, j :: 0 <= i < j < |Charset| ==> Charset[i] != Charset[j]
  {
    forall i, j | 0 <= i < j < |Charset| ensures Charset[i] != Charset[j] {
      CharsetAt(i);
      CharsetAt(j);
      if 62 <= i {
        RunFacts();
        assert CharsetSymbols[i - 62] != CharsetSymbols[j - 62];
      }
    }
  }

  /** Two bytes give the same character exactly when they agree modulo 90. */
  lemma CharForCongruent(b1: byte, b2: byte)
    ensures CharFor(b1) == CharFor(b2) <==> b1 as int % 90 == b2 as int % 90
  {
    CharsetDistinct();
    var i, j := b1 as int % 90, b2 as int % 90;
    if i < j {
      assert Charset[i] != Charset[j];
    } else if j < i {
      assert Charset[j] != Charset[i];
    }
  }

  /** The bytes that select alphabet index `idx`. */
  function Preimage(idx: int): set<int>
  {
    set b | 0 <= b < 256 && b % 90 == idx
  }

  /**
   * The modulo bias: 256 = 2 * 90 + 76, so each of the first 76 characters is
   * selected by three byte values and each of the last 14 by two.
   */
  lemma ModuloBias(idx: int)
    requires 0 <= idx < |Charset|
    ensures |Preimage(idx)| == if idx < 76 then 3 else 2
  {
    if idx < 76 {
      assert Preimage(idx) == {idx, idx + 90, idx + 180};
    } else {
      assert Preimage(idx) == {idx, idx + 90};
    }
  }

  /** The bytes that make the generator emit character `c`. */
  function CharPreimage(c: char): set<int>
  {
    set b | 0 <= b < 256 && Charset[b % 90] == c
  }

  /**
   * The bias seen by a reader of the password: since the alphabet has no
   * repeats, each of its first 76 characters is emitted for three byte values
   * and each of the last 14 for two.
   */
  lemma CharacterBias(idx: int)
    requires 0 <= idx < |Charset|
    ensures |CharPreimage(Charset[idx])| == if idx < 76 then 3 else 2
  {
    CharsetDistinct();
    assert CharPreimage(Charset[idx]) == Preimage(idx);
    ModuloBias(idx);
  }

  /** The generator's symbols are a subset of the scorer's symbol class. */
  lemma CharsetSymbolsScored()
    ensures forall i :: 0 <= i < |CharsetSymbols| ==> Scoring.IsSymbol(CharsetSymbols[i])
  {
  }

  /** Every character the generator can emit is credited by the scorer as a letter, a digit or a symbol. */
  lemma CharsetScoredByClasses(i: int)
    requires 0 <= i < |Charset|
    ensures var c := Charset[i];
      Scoring.IsLower(c) || Scoring.IsUpper(c) || Scoring.IsDigit(c) || Scoring.IsSymbol(c)
  {
    CharsetAt(i);
    if 62 <= i {
      CharsetSymbolsScored();
    }
  }

}
