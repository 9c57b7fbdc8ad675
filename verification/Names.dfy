/** Container names: the validity check of src/common/common.c and the random ids of unique_random_id.c. */
module Names {
  import opened Wrappers
  import opened Paths
  import opened FileSystem

  predicate ValidIdChar(c: char) {
    'a' <= c <= 'z' || '0' <= c <= '9' || c == '.' || c == '_' || c == '-'
  }

  predicate ValidId(id: string) {
    id != "" && id[0] != '.' && forall i :: 0 <= i < |id| ==> ValidIdChar(id[i])
  }

  /** ocre_is_valid_name; `None` is NULL. */
  method IsValidName(id: Option<string>) returns (ok: bool)
    ensures ok <==> id.Some? && ValidId(id.value)
  {
    if id.None? {
      return false;
    }
    if id.value == "" || id.value[0] == '.' {
      return false;
    }
    for i := 0 to |id.value|
      invariant forall j :: 0 <= j < i ==> ValidIdChar(id.value[j])
    {
      if !ValidIdChar(id.value[i]) {
        return false;
      }
    }
    ok := true;
  }

  /** The characters of a name, by their codes: a to z, 0 to 9, dot, underscore and hyphen. */
  lemma NameCharacters(c: char)
    ensures ValidIdChar(c) <==>
            97 <= c as int <= 122 || 48 <= c as int <= 57 || c as int == 46 || c as int == 95 || c as int == 45
  {
  }

  /** Names that are valid, and names that are not. */
  lemma SampleNames()
    ensures ValidId("web-1.0_b") && ValidId("0") && ValidId("-") && ValidId("_")
    ensures !ValidId("") && !ValidId(".web") && !ValidId("Web") && !ValidId("a/b") && !ValidId("a b")
  {
    assert "Web"[0] == 'W' && "a/b"[1] == '/' && "a b"[1] == ' ';
  }

  /** A valid name is one proper path component: no slash, and neither "." nor "..". */
  lemma ValidIdIsComponent(id: string)
    requires ValidId(id)
    ensures ValidName(id)
  {
  }

  const RAND_MAX: nat := 0x7fff_ffff
  const RANDOM_ID_LEN: nat := 8
  const TRIES: nat := 100

  predicate IsHex(c: char) { '0' <= c <= '9' || 'a' <= c <= 'f' }

  function NibbleToHex(n: nat): (c: char)
    requires n < 16
    ensures IsHex(c)
  {
    if n < 10 then '0' + n as char else 'a' + (n - 10) as char
  }

  function HexValue(c: char): nat {
    if '0' <= c <= '9' then (c - '0') as nat else if 'a' <= c <= 'f' then 10 + (c - 'a') as nat else 16
  }

  /** The sixteen digits are different, and each stands for its value. */
  lemma DigitRoundTrip(n: nat)
    requires n < 16
    ensures HexValue(NibbleToHex(n)) == n
  {
  }

  /** The quotient can be 16 for the largest values of rand(); the mask brings it back. */
  function Nibble(r: nat): (n: nat)
    ensures n < 16
  {
    (r / (RAND_MAX / 16)) % 16
  }

  /** Each digit is drawn by the same number of values of rand(), 134217727 in a row; what is left over draws 0. */
  lemma DigitsAreEven(r: nat, n: nat)
    requires r <= RAND_MAX && n <= 16 && n * 134217727 <= r < (n + 1) * 134217727
    ensures Nibble(r) == if n < 16 then n else 0
  {
    assert r / 134217727 == n;
  }

  /** The id drawn from the calls of rand() number at..at + 7. */
  function RandomId(rand: nat -> nat, at: nat): (id: string)
    ensures |id| == RANDOM_ID_LEN - 1 && forall i :: 0 <= i < |id| ==> id[i] == NibbleToHex(Nibble(rand(at + i)))
  {
    seq(RANDOM_ID_LEN - 1, i requires 0 <= i < RANDOM_ID_LEN - 1 => NibbleToHex(Nibble(rand(at + i))))
  }

  lemma RandomIdValid(rand: nat -> nat, at: nat)
    ensures ValidId(RandomId(rand, at))
  {
    var id := RandomId(rand, at);
    forall i | 0 <= i < |id|
      ensures ValidIdChar(id[i]) && id[i] != '.'
    {
      assert IsHex(id[i]);
    }
  }

  /** generate_random_id: fills the buffer digit by digit. */
  method GenerateRandomId(rand: nat -> nat, at: nat) returns (id: string)
    ensures id == RandomId(rand, at)
  {
    id := "";
    for i := 0 to RANDOM_ID_LEN - 1
      invariant |id| == i && forall j :: 0 <= j < i ==> id[j] == NibbleToHex(Nibble(rand(at + j)))
    {
      id := id + [NibbleToHex(Nibble(rand(at + i)))];
    }
  }
}
