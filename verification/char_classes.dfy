/**
  The two character classes the input parser works with: ASCII decimal
  digits (the regular expression class `\d`, which means exactly `0`-`9`)
  and the six operator characters `+ - * / ! %`.
  A JavaScript string is a sequence of UTF-16 code units; here it is a
  `seq<char>`, which makes no difference because every legal character is ASCII.
 */
module CharClasses {

  datatype CharClass = Digit | Operator

  predicate IsDigit(c: char) {
    '0' <= c <= '9'
  }

  predicate IsOperator(c: char) {
    c == '+' || c == '-' || c == '*' || c == '/' || c == '!' || c == '%'
  }

  predicate InClass(c: char, k: CharClass) {
    match k
    case Digit => IsDigit(c)
    case Operator => IsOperator(c)
  }

  /** The character class `\d|[\+\-\*\/\!\%]` that decides whether input is accepted. */
  predicate IsLegal(c: char) {
    IsDigit(c) || IsOperator(c)
  }

  /** The class of the other kind of token. */
  function Other(k: CharClass): (o: CharClass)
    ensures o != k
  {
    match k
    case Digit => Operator
    case Operator => Digit
  }

  /** The class a legal character belongs to. */
  function ClassOf(c: char): (k: CharClass)
    requires IsLegal(c)
    ensures InClass(c, k)
    ensures !InClass(c, Other(k))
  {
    if IsDigit(c) then Digit else Operator
  }

  /** Every character of `s` belongs to class `k`. */
  predicate AllIn(s: seq<char>, k: CharClass) {
    forall i :: 0 <= i < |s| ==> InClass(s[i], k)
  }

  /** No character of `s` belongs to class `k`. */
  predicate NoneIn(s: seq<char>, k: CharClass) {
    forall i :: 0 <= i < |s| ==> !InClass(s[i], k)
  }

  predicate AllLegal(s: seq<char>) {
    forall i :: 0 <= i < |s| ==> IsLegal(s[i])
  }

  /** A legal character is in exactly one of the two classes. */
  lemma LegalIsExactlyOneClass(c: char, k: CharClass)
    requires IsLegal(c)
    ensures InClass(c, k) <==> !InClass(c, Other(k))
  {
  }

  /** `s` with every character of class `k` removed, order kept. */
  function Without(s: seq<char>, k: CharClass): (r: seq<char>)
    ensures |r| <= |s|
    ensures NoneIn(r, k)
    ensures NoneIn(s, k) ==> r == s
    ensures AllIn(s, k) ==> r == []
  {
    if |s| == 0 then []
    else if InClass(s[0], k) then Without(s[1..], k)
    else [s[0]] + Without(s[1..], k)
  }

  /** The length of the longest prefix of `s` whose characters are all in class `k`. */
  function RunLength(s: seq<char>, k: CharClass): (n: nat)
    ensures n <= |s|
    ensures AllIn(s[..n], k)
    ensures n == |s| || !InClass(s[n], k)
    ensures |s| > 0 && InClass(s[0], k) ==> n > 0
  {
    if |s| == 0 || !InClass(s[0], k) then 0
    else
      var n := 1 + RunLength(s[1..], k);
      assert s[..n] == [s[0]] + s[1..][..n - 1];
      n
  }

  /** Removing a class from a legal string leaves a legal string. */
  lemma {:induction false} WithoutKeepsLegal(s: seq<char>, k: CharClass)
    requires AllLegal(s)
    ensures AllLegal(Without(s, k))
  {
    if |s| > 0 {
      WithoutKeepsLegal(s[1..], k);
    }
  }
}
