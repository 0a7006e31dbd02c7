/**
 Roman numerals: the printer of 1-number5/i.c, which walks a table of blocks, and the reader of
 1-number5/rome2arabic.c, which goes from right to left and subtracts a digit smaller than the one
 after it.
 */
module Roman {
  import opened Collections

  datatype Block = Block(value: nat, text: string)

  const BLOCKS: seq<Block> := [
    Block(1000, "M"), Block(900, "CM"), Block(500, "D"), Block(400, "CD"),
    Block(100, "C"), Block(90, "XC"), Block(50, "L"), Block(40, "XL"),
    Block(10, "X"), Block(9, "IX"), Block(5, "V"), Block(4, "IV"), Block(1, "I")]

  // ---------- the printer ----------

  /** The blocks still to be written when the table is at line i. */
  function Written(n: nat, i: nat): string
    requires i <= |BLOCKS|
    decreases n, |BLOCKS| - i
  {
    if i == |BLOCKS| then ""
    else if n >= BLOCKS[i].value then BLOCKS[i].text + Written(n - BLOCKS[i].value, i)
    else Written(n, i + 1)
  }

  method ToRome(n: int) returns (result: string)
    ensures result == if n < 0 then "" else Written(n, 0)
    ensures n >= 0 ==> result == ByPlaces(n)
  {
    var left := n;
    result := "";
    var i := 0;
    while i < |BLOCKS|
      invariant 0 <= i <= |BLOCKS|
      invariant n < 0 ==> left == n && result == ""
      invariant 0 <= n ==> 0 <= left && result + Written(left, i) == Written(n, 0)
      decreases if left < 0 then 0 else left, |BLOCKS| - i
    {
      TableIsWellWritten(i);
      if left >= BLOCKS[i].value {
        WriteBlock(left, i);
        Regroup(result, BLOCKS[i].text, Written(left - BLOCKS[i].value, i));
        left := left - BLOCKS[i].value;
        result := result + BLOCKS[i].text;
      } else {
        if 0 <= left {
          SkipBlock(left, i);
        }
        i := i + 1;
      }
    }
    if 0 <= n {
      WrittenByPlaces(n);
    }
  }

  // ---------- the same by decimal places ----------

  function Repeat(c: char, k: nat): (s: string)
    ensures |s| == k && forall i :: 0 <= i < k ==> s[i] == c
  {
    if k == 0 then "" else [c] + Repeat(c, k - 1)
  }

  /** One decimal digit, in the letters for one, five and ten of its place. */
  function Place(d: nat, one: char, five: char, ten: char): string {
    if d == 9 then [one, ten]
    else if d >= 5 then [five] + Repeat(one, d - 5)
    else if d == 4 then [one, five]
    else Repeat(one, d)
  }

  /** A number place by place: thousands, hundreds, tens, ones. */
  function ByPlaces(n: nat): string {
    Repeat('M', n / 1000) + Hundreds(n / 100 % 10) + Tens(n / 10 % 10) + Ones(n % 10)
  }

  function Hundreds(d: nat): string { Place(d, 'C', 'D', 'M') }
  function Tens(d: nat): string { Place(d, 'X', 'L', 'C') }
  function Ones(d: nat): string { Place(d, 'I', 'V', 'X') }

  lemma TakeOne(k: nat, u: nat, r: nat)
    requires k >= 1
    ensures k * u + r - u == (k - 1) * u + r && k * u + r >= u
  {}

  lemma Regroup(a: string, b: string, c: string)
    ensures a + (b + c) == (a + b) + c
  {}

  lemma WriteBlock(n: nat, j: nat)
    requires j < |BLOCKS| && 0 < BLOCKS[j].value <= n
    ensures Written(n, j) == BLOCKS[j].text + Written(n - BLOCKS[j].value, j)
  {}

  lemma SkipBlock(n: nat, j: nat)
    requires j < |BLOCKS| && n < BLOCKS[j].value
    ensures Written(n, j) == Written(n, j + 1)
  {}

  /** A block of one letter is written as often as it fits. */
  lemma {:induction false} WrittenOften(n: nat, k: nat, r: nat, j: nat, u: nat, c: char)
    requires j < |BLOCKS| && BLOCKS[j] == Block(u, [c]) && n == k * u + r && r < u
    ensures Written(n, j) == Repeat(c, k) + Written(r, j + 1)
    decreases k
  {
    if k == 0 {
      SkipBlock(r, j);
    } else {
      TakeOne(k, u, r);
      WriteBlock(n, j);
      WrittenOften(n - u, k - 1, r, j, u, c);
      Regroup([c], Repeat(c, k - 1), Written(r, j + 1));
    }
  }

  /** The four lines of the table that belong to the place of unit u. */
  predicate PlaceAt(i: nat, u: nat, one: char, five: char, ten: char) {
    && i + 4 <= |BLOCKS| && u >= 1
    && BLOCKS[i] == Block(9 * u, [one, ten]) && BLOCKS[i + 1] == Block(5 * u, [five])
    && BLOCKS[i + 2] == Block(4 * u, [one, five]) && BLOCKS[i + 3] == Block(u, [one])
  }

  /** They write the digit and leave the rest. */
  lemma WrittenPlace(n: nat, k: nat, r: nat, i: nat, u: nat, one: char, five: char, ten: char)
    requires n == k * u + r && k <= 9 && r < u && PlaceAt(i, u, one, five, ten)
    ensures Written(n, i) == Place(k, one, five, ten) + Written(r, i + 4)
  {
    if k == 9 {
      WriteBlock(n, i);
      BelowFour(r, i, u, one, five, ten);
      SkipBlock(r, i + 3);
    } else if k >= 5 {
      FiveAndMore(n, k, r, i, u, one, five, ten);
    } else if k == 4 {
      ExactlyFour(n, r, i, u, one, five, ten);
    } else {
      TakeFew(k, u, r);
      BelowFour(n, i, u, one, five, ten);
      WrittenOften(n, k, r, i + 3, u, one);
    }
  }

  lemma ExactlyFour(n: nat, r: nat, i: nat, u: nat, one: char, five: char, ten: char)
    requires n == 4 * u + r && r < u && PlaceAt(i, u, one, five, ten)
    ensures Written(n, i) == [one, five] + Written(r, i + 4)
  {
    SkipBlock(n, i);
    SkipBlock(n, i + 1);
    WriteBlock(n, i + 2);
    SkipBlock(r, i + 2);
    SkipBlock(r, i + 3);
  }

  lemma TakeFew(k: nat, u: nat, r: nat)
    requires k <= 3 && r < u
    ensures k * u + r < 4 * u
  {
    assert k == 0 || k == 1 || k == 2 || k == 3;
  }

  lemma BelowFour(n: nat, i: nat, u: nat, one: char, five: char, ten: char)
    requires n < 4 * u && PlaceAt(i, u, one, five, ten)
    ensures Written(n, i) == Written(n, i + 1) == Written(n, i + 2) == Written(n, i + 3)
  {
    SkipBlock(n, i);
    SkipBlock(n, i + 1);
    SkipBlock(n, i + 2);
  }

  lemma TakeFive(k: nat, u: nat, r: nat)
    requires 5 <= k <= 8 && r < u
    ensures k * u + r - 5 * u == (k - 5) * u + r < 4 * u && 5 * u <= k * u + r < 9 * u
  {
    assert k == 5 || k == 6 || k == 7 || k == 8;
  }

  lemma FiveAndMore(n: nat, k: nat, r: nat, i: nat, u: nat, one: char, five: char, ten: char)
    requires n == k * u + r && 5 <= k <= 8 && r < u && PlaceAt(i, u, one, five, ten)
    ensures Written(n, i) == [five] + Repeat(one, k - 5) + Written(r, i + 4)
  {
    TakeFive(k, u, r);
    SkipBlock(n, i);
    WriteBlock(n, i + 1);
    BelowFour(n - 5 * u, i, u, one, five, ten);
    WrittenOften(n - 5 * u, k - 5, r, i + 3, u, one);
    Regroup([five], Repeat(one, k - 5), Written(r, i + 4));
  }

  lemma SplitNumber(n: nat)
    ensures n == n / 1000 * 1000 + n % 1000
    ensures n % 1000 == n / 100 % 10 * 100 + n % 100
    ensures n % 100 == n / 10 % 10 * 10 + n % 10
  {}

  lemma TablePlaces()
    ensures BLOCKS[0] == Block(1000, ['M']) && PlaceAt(1, 100, 'C', 'D', 'M')
    ensures PlaceAt(5, 10, 'X', 'L', 'C') && PlaceAt(9, 1, 'I', 'V', 'X')
  {}

  lemma OnesWritten(o: nat, i: nat)
    requires i == 9 && o < 10
    ensures Written(o, i) == Ones(o) + ""
  {
    TablePlaces();
    WrittenPlace(o, o, 0, i, 1, 'I', 'V', 'X');
  }

  lemma TensWritten(n: nat, t: nat, o: nat, i: nat)
    requires i == 5 && n == t * 10 + o && t < 10 && o < 10
    ensures Written(n, i) == Tens(t) + (Ones(o) + "")
  {
    TablePlaces();
    WrittenPlace(n, t, o, i, 10, 'X', 'L', 'C');
    OnesWritten(o, i + 4);
  }

  lemma HundredsWritten(n: nat, h: nat, r: nat, t: nat, o: nat, i: nat)
    requires i == 1 && n == h * 100 + r && r == t * 10 + o && h < 10 && t < 10 && o < 10
    ensures Written(n, i) == Hundreds(h) + (Tens(t) + (Ones(o) + ""))
  {
    TablePlaces();
    WrittenPlace(n, h, r, i, 100, 'C', 'D', 'M');
    TensWritten(r, t, o, i + 4);
  }

  lemma ThousandsWritten(n: nat, th: nat, r: nat, i: nat)
    requires i == 0 && n == th * 1000 + r && r < 1000
    ensures Written(n, i) == Repeat('M', th) + Written(r, i + 1)
  {
    TablePlaces();
    WrittenOften(n, th, r, i, 1000, 'M');
  }

  /** The table writes every number place by place. */
  lemma WrittenByPlaces(n: nat)
    ensures Written(n, 0) == ByPlaces(n)
  {
    SplitNumber(n);
    ThousandsWritten(n, n / 1000, n % 1000, 0);
    HundredsWritten(n % 1000, n / 100 % 10, n % 100, n / 10 % 10, n % 10, 1);
    JoinPlaces(Repeat('M', n / 1000), Hundreds(n / 100 % 10), Tens(n / 10 % 10), Ones(n % 10));
  }

  lemma JoinPlaces(a: string, b: string, c: string, d: string)
    ensures a + (b + (c + (d + ""))) == a + b + c + d
  {
    Regroup(a, b, c + d);
    Regroup(a + b, c, d);
  }

  // ---------- the reader ----------

  /** The value of a letter of either case; none for any other character. */
  function Digit(c: char): Option<nat> {
    match c
    case 'I' => Some(1) case 'i' => Some(1)
    case 'V' => Some(5) case 'v' => Some(5)
    case 'X' => Some(10) case 'x' => Some(10)
    case 'L' => Some(50) case 'l' => Some(50)
    case 'C' => Some(100) case 'c' => Some(100)
    case 'D' => Some(500) case 'd' => Some(500)
    case 'M' => Some(1000) case 'm' => Some(1000)
    case _ => None
  }

  function Worth(c: char): nat {
    if Digit(c).Some? then Digit(c).value else 0
  }

  const LETTERS := "IVXLCDM"
  const SMALL_LETTERS := "ivxlcdm"

  /** One, and from there five times and twice as much in turn; small letters count the same. */
  lemma LettersAlternate(k: nat)
    requires k < 7
    ensures |LETTERS| == |SMALL_LETTERS| == 7 && Digit(SMALL_LETTERS[k]) == Digit(LETTERS[k])
    ensures k == 0 ==> Digit(LETTERS[k]) == Some(1)
    ensures Digit(LETTERS[k]).Some?
    ensures k > 0 ==> Worth(LETTERS[k]) == Worth(LETTERS[k - 1]) * if k % 2 == 1 then 5 else 2
  {
    assert k == 0 || k == 1 || k == 2 || k == 3 || k == 4 || k == 5 || k == 6;
  }

  /** There are no other digits. */
  lemma OnlyTheLetters(c: char)
    ensures Digit(c).Some? <==> c in LETTERS || c in SMALL_LETTERS
  {
    assert LETTERS == ['I', 'V', 'X', 'L', 'C', 'D', 'M'] && SMALL_LETTERS == ['i', 'v', 'x', 'l', 'c', 'd', 'm'];
  }

  predicate IsNumeral(s: string) {
    forall i :: 0 <= i < |s| ==> Digit(s[i]).Some?
  }

  /** The digit of the first letter, zero at the end. */
  function First(s: string): nat
    requires IsNumeral(s)
  {
    if s == "" then 0 else Digit(s[0]).value
  }

  /** Every letter counts for its digit, negative before a larger digit. */
  function Value(s: string): int
    requires IsNumeral(s)
  {
    if s == "" then 0
    else if First(s) < First(s[1..]) then Value(s[1..]) - First(s)
    else Value(s[1..]) + First(s)
  }

  /** The running value is never below the last digit read, so the unsigned subtraction cannot wrap. */
  lemma {:induction false} NeverBelowZero(s: string)
    requires IsNumeral(s)
    ensures First(s) <= Value(s)
  {
    if s != "" {
      NeverBelowZero(s[1..]);
    }
  }

  /** The first n letters, each added, or subtracted if the next one is worth more. */
  function SignedSum(s: string, n: nat): int
    requires n <= |s|
  {
    if n == 0 then 0
    else
      var worth: int := Worth(s[n - 1]);
      SignedSum(s, n - 1) + if n < |s| && worth < Worth(s[n]) then -worth else worth
  }

  lemma {:induction false} SignedSumTail(s: string, n: nat)
    requires 0 < n <= |s|
    ensures SignedSum(s, n) == SignedSum(s, 1) + SignedSum(s[1..], n - 1)
  {
    if n > 1 {
      SignedSumTail(s, n - 1);
      assert s[1..][n - 2] == s[n - 1];
      assert n < |s| ==> s[1..][n - 1] == s[n];
    }
  }

  lemma {:induction false} ValueIsSignedSum(s: string, n: nat)
    requires IsNumeral(s) && n == |s|
    ensures Value(s) == SignedSum(s, n)
  {
    if s != "" {
      ValueIsSignedSum(s[1..], n - 1);
      SignedSumTail(s, n);
      assert SignedSum(s, 0) == 0;
      assert n > 1 ==> s[1..][0] == s[1];
    }
  }

  /** Aborts, here None, exactly at a character that is no Roman digit. */
  method Read(s: string) returns (value: Option<nat>)
    requires s != ""
    ensures value.Some? <==> IsNumeral(s)
    ensures value.Some? ==> value.value == Value(s) == SignedSum(s, |s|)
  {
    var total: nat, last: nat, i := 0, 0, |s|;
    while i > 0
      invariant 0 <= i <= |s| && IsNumeral(s[i..])
      invariant total == Value(s[i..]) && last == First(s[i..])
    {
      i := i - 1;
      assert s[i..][0] == s[i] && s[i..][1..] == s[i + 1..];
      var digit := Digit(s[i]);
      if digit == None {
        return None;
      }
      NeverBelowZero(s[i + 1..]);
      if digit.value < last {
        total := total - digit.value;
      } else {
        total := total + digit.value;
      }
      last := digit.value;
    }
    assert s[0..] == s;
    ValueIsSignedSum(s, |s|);
    value := Some(total);
  }

  // ---------- round trip ----------

  /** Every line of the table is a digit worth its value, or a smaller digit before a larger one. */
  predicate WellWritten(block: Block) {
    && 1 <= |block.text| <= 2 && IsNumeral(block.text)
    && if |block.text| == 1 then First(block.text) == block.value
       else First(block.text) + block.value == Digit(block.text[1]).value && First(block.text) <= block.value
  }

  lemma TableIsWellWritten(i: nat)
    requires i < |BLOCKS|
    ensures WellWritten(BLOCKS[i]) && BLOCKS[i].value > 0
  {
    if i % 2 == 1 {
      TwoLetters(i);
    } else {
      assert i == 0 || i == 2 || i == 4 || i == 6 || i == 8 || i == 10 || i == 12;
    }
  }

  lemma TwoLetters(i: nat)
    requires i < |BLOCKS| && i % 2 == 1
    ensures WellWritten(BLOCKS[i]) && BLOCKS[i].value > 0
  {
    assert i == 1 || i == 3 || i == 5 || i == 7 || i == 9 || i == 11;
  }

  /** One block in front of letters whose first is no larger than the block's value. */
  lemma BlockInFront(block: Block, rest: string)
    requires WellWritten(block) && block.value > 0 && IsNumeral(rest) && First(rest) <= block.value
    ensures IsNumeral(block.text + rest)
    ensures Value(block.text + rest) == block.value + Value(rest)
    ensures First(block.text + rest) <= block.value
  {
    var s := block.text + rest;
    if |block.text| == 1 {
      assert s[1..] == rest;
    } else {
      assert s[1..][1..] == rest;
    }
  }

  lemma {:induction false} WrittenIsRead(n: nat, i: nat)
    requires i < |BLOCKS|
    ensures IsNumeral(Written(n, i)) && Value(Written(n, i)) == n
    ensures First(Written(n, i)) <= BLOCKS[i].value
    decreases n, |BLOCKS| - i
  {
    TableIsWellWritten(i);
    if n >= BLOCKS[i].value {
      WrittenIsRead(n - BLOCKS[i].value, i);
      BlockInFront(BLOCKS[i], Written(n - BLOCKS[i].value, i));
    } else if i + 1 < |BLOCKS| {
      assert BLOCKS[i + 1].value < BLOCKS[i].value;
      WrittenIsRead(n, i + 1);
    }
  }

  /** Reading what was printed for N >= 1, however large, gives N. */
  lemma RoundTrip(n: nat)
    requires n >= 1
    ensures Written(n, 0) != "" && IsNumeral(Written(n, 0))
    ensures Value(Written(n, 0)) == n
  {
    WrittenIsRead(n, 0);
  }

  /** Different numbers are printed differently. */
  lemma PrintedDifferently(m: nat, n: nat)
    ensures Written(m, 0) == Written(n, 0) <==> m == n
  {
    WrittenIsRead(m, 0);
    WrittenIsRead(n, 0);
  }

  // ---------- numerals are regular ----------

  /** Only M stands four times running. */
  predicate NoFourRunning(s: string) {
    forall i :: 0 <= i < |s| - 3 && s[i] == s[i + 1] == s[i + 2] == s[i + 3] ==> s[i] == 'M'
  }

  /** Only I, X and C stand before a larger letter, which is then worth at most ten times as much. */
  predicate SubtractsRegularly(s: string) {
    forall i :: 0 <= i < |s| - 1 && Worth(s[i]) < Worth(s[i + 1]) ==>
      (s[i] == 'I' || s[i] == 'X' || s[i] == 'C') && Worth(s[i + 1]) <= 10 * Worth(s[i])
  }

  /** D, L and V occur at most once. */
  predicate FivesOnce(s: string) {
    forall i, j :: 0 <= i < j < |s| && s[i] == s[j] ==> s[i] != 'D' && s[i] != 'L' && s[i] != 'V'
  }

  /** b goes on with a letter that is smaller than a's last and not in a. */
  predicate GoesDown(a: string, b: string) {
    b != "" ==> b[0] !in a && (a != "" ==> Worth(b[0]) <= Worth(a[|a| - 1]))
  }

  lemma JoinNoFour(a: string, b: string)
    requires NoFourRunning(a) && NoFourRunning(b) && GoesDown(a, b)
    ensures NoFourRunning(a + b)
  {
    var s := a + b;
    assert b != "" ==> s[|a|] == b[0];
    assert forall k :: 0 <= k < |a| ==> s[k] == a[k];
    forall i | 0 <= i < |s| - 3 && s[i] == s[i + 1] == s[i + 2] == s[i + 3]
      ensures s[i] == 'M'
    {
      if |a| <= i {
        assert b[i - |a|] == b[i - |a| + 1] == b[i - |a| + 2] == b[i - |a| + 3];
      } else if i + 3 < |a| {
        assert a[i] == a[i + 1] == a[i + 2] == a[i + 3];
      }
    }
  }

  lemma JoinSubtracts(a: string, b: string)
    requires SubtractsRegularly(a) && SubtractsRegularly(b) && GoesDown(a, b)
    ensures SubtractsRegularly(a + b)
  {
    var s := a + b;
    forall i | 0 <= i < |s| - 1 && Worth(s[i]) < Worth(s[i + 1])
      ensures (s[i] == 'I' || s[i] == 'X' || s[i] == 'C') && Worth(s[i + 1]) <= 10 * Worth(s[i])
    {
      if i + 1 < |a| {
        assert s[i] == a[i] && s[i + 1] == a[i + 1];
      } else if |a| <= i {
        assert s[i] == b[i - |a|] && s[i + 1] == b[i - |a| + 1];
      }
    }
  }

  /** The letters of a place, regular in themselves. */
  predicate PlaceShape(s: string, one: char, five: char, ten: char) {
    && NoFourRunning(s) && SubtractsRegularly(s) && (s != "" ==> s[0] == one || s[0] == five)
    && (forall i :: 0 <= i < |s| ==> s[i] == one || s[i] == five || s[i] == ten)
    && (forall i, j :: 0 <= i < j < |s| && s[i] == s[j] ==> s[i] != five)
  }

  /** Letters that make up a place. */
  predicate PlaceLetters(one: char, five: char, ten: char) {
    && (one == 'I' || one == 'X' || one == 'C') && 1 <= Worth(one)
    && Worth(five) == 5 * Worth(one) && Worth(ten) == 10 * Worth(one)
    && ten != 'D' && ten != 'L' && ten != 'V'
  }

  /** Four, or nine: two different letters. */
  lemma TwoLettersShape(s: string, one: char, two: char, five: char, ten: char)
    requires PlaceLetters(one, five, ten) && s == [one, two] && (two == five || two == ten)
    ensures PlaceShape(s, one, five, ten)
  {
    assert Worth(one) != Worth(two) && Worth(one) != Worth(five);
    assert |s| == 2 && s[0] == one && s[1] == two;
  }

  /** Up to three. */
  lemma FewOnesShape(k: nat, one: char, five: char, ten: char)
    requires k <= 3 && PlaceLetters(one, five, ten)
    ensures PlaceShape(Repeat(one, k), one, five, ten)
  {
    assert Worth(one) != Worth(five);
  }

  /** A letter in front of up to three that are smaller. */
  lemma FiveInFront(r: string, one: char, five: char, ten: char)
    requires 1 <= |r| <= 4 && r[0] == five && forall i :: 1 <= i < |r| ==> r[i] == one
    requires one != five && Worth(one) <= Worth(five)
    ensures PlaceShape(r, one, five, ten)
  {
    forall i | 0 <= i < |r| - 1
      ensures Worth(r[i + 1]) <= Worth(r[i])
    {
      assert r[i + 1] == one && (r[i] == five || r[i] == one);
    }
  }

  lemma PlaceIsRegular(d: nat, one: char, five: char, ten: char)
    requires d <= 9 && PlaceLetters(one, five, ten)
    ensures PlaceShape(Place(d, one, five, ten), one, five, ten)
  {
    if d == 9 {
      TwoLettersShape([one, ten], one, ten, five, ten);
    } else if d >= 5 {
      FiveInFront([five] + Repeat(one, d - 5), one, five, ten);
    } else if d == 4 {
      TwoLettersShape([one, five], one, five, five, ten);
    } else {
      FewOnesShape(d, one, five, ten);
    }
  }

  predicate AllAtLeast(s: string, w: nat) {
    forall i :: 0 <= i < |s| ==> w <= Worth(s[i])
  }

  /** What has been written so far, and the next place behind it. */
  lemma JoinPlace(a: string, s: string, one: char, five: char, ten: char)
    requires NoFourRunning(a) && SubtractsRegularly(a) && FivesOnce(a)
    requires PlaceLetters(one, five, ten) && PlaceShape(s, one, five, ten) && AllAtLeast(a, 10 * Worth(one))
    ensures NoFourRunning(a + s) && SubtractsRegularly(a + s) && FivesOnce(a + s) && AllAtLeast(a + s, Worth(one))
  {
    SmallerIsNew(a, one, 10 * Worth(one));
    SmallerIsNew(a, five, 10 * Worth(one));
    JoinNoFour(a, s);
    JoinSubtracts(a, s);
    JoinFives(a, s, one, five, ten);
    assert AllAtLeast(s, Worth(one));
  }

  lemma SmallerIsNew(a: string, c: char, w: nat)
    requires AllAtLeast(a, w) && Worth(c) < w
    ensures c !in a
  {}

  lemma JoinFives(a: string, s: string, one: char, five: char, ten: char)
    requires FivesOnce(a) && PlaceLetters(one, five, ten) && PlaceShape(s, one, five, ten)
    requires one !in a && five !in a
    ensures FivesOnce(a + s)
  {
    var r := a + s;
    forall i, j | 0 <= i < j < |r| && r[i] == r[j]
      ensures r[i] != 'D' && r[i] != 'L' && r[i] != 'V'
    {
      if j < |a| {
        assert a[i] == a[j];
      } else if |a| <= i {
        assert s[i - |a|] == s[j - |a|];
      } else {
        assert r[i] in a && r[j] == s[j - |a|];
      }
    }
  }

  lemma LettersOfPlaces()
    ensures PlaceLetters('C', 'D', 'M') && PlaceLetters('X', 'L', 'C') && PlaceLetters('I', 'V', 'X')
    ensures Worth('M') == 1000 && Worth('C') == 100 && Worth('X') == 10 && Worth('I') == 1
  {}

  lemma AnotherPlace(a: string, d: nat, one: char, five: char, ten: char)
    requires NoFourRunning(a) && SubtractsRegularly(a) && FivesOnce(a)
    requires d <= 9 && PlaceLetters(one, five, ten) && AllAtLeast(a, 10 * Worth(one))
    ensures var s := a + Place(d, one, five, ten);
      NoFourRunning(s) && SubtractsRegularly(s) && FivesOnce(s) && AllAtLeast(s, Worth(one))
  {
    PlaceIsRegular(d, one, five, ten);
    JoinPlace(a, Place(d, one, five, ten), one, five, ten);
  }

  /** Regular so far, in letters worth at least w. */
  predicate RegularFrom(s: string, w: nat) {
    NoFourRunning(s) && SubtractsRegularly(s) && FivesOnce(s) && AllAtLeast(s, w)
  }

  lemma ThousandsAreRegular(th: string)
    requires forall i :: 0 <= i < |th| ==> th[i] == 'M'
    ensures RegularFrom(th, 1000)
  {}

  lemma HundredsAreRegular(a: string, d: nat)
    requires RegularFrom(a, 1000) && d <= 9
    ensures RegularFrom(a + Hundreds(d), 100)
  {
    LettersOfPlaces();
    AnotherPlace(a, d, 'C', 'D', 'M');
  }

  lemma TensAreRegular(a: string, d: nat)
    requires RegularFrom(a, 100) && d <= 9
    ensures RegularFrom(a + Tens(d), 10)
  {
    LettersOfPlaces();
    AnotherPlace(a, d, 'X', 'L', 'C');
  }

  lemma OnesAreRegular(a: string, d: nat)
    requires RegularFrom(a, 10) && d <= 9
    ensures RegularFrom(a + Ones(d), 1)
  {
    LettersOfPlaces();
    AnotherPlace(a, d, 'I', 'V', 'X');
  }

  /**
   Whatever number is printed: only M stands four times running, D, L and V occur at most once, and
   only I, X and C stand before a larger letter, worth at most ten times as much.
   */
  lemma WrittenIsRegular(n: nat)
    ensures NoFourRunning(Written(n, 0)) && SubtractsRegularly(Written(n, 0)) && FivesOnce(Written(n, 0))
  {
    var th, h, t, o := Repeat('M', n / 1000), n / 100 % 10, n / 10 % 10, n % 10;
    WrittenByPlaces(n);
    ThousandsAreRegular(th);
    HundredsAreRegular(th, h);
    TensAreRegular(th + Hundreds(h), t);
    OnesAreRegular(th + Hundreds(h) + Tens(t), o);
  }
}
