/** Option contract symbols in the OSI form: printing, parsing and re-spelling. */
module Options {
  import opened Wrappers
  import opened Sizing

  const STRIKE_LIMIT := 100000000
  const TAIL_LENGTH := 15

  datatype Kind = Call | Put
  datatype Date = Date(year: int, month: int, day: int)
  datatype Contract = Contract(underlying: string, expiry: Date, kind: Kind, strike: real)

  datatype OsiError = BadRoot | BadStrike | StrikeTooLarge | BadType | NotOsi | BadDate

  // -- Text ------------------------------------------------------------------------------------

  predicate IsSpace(c: char) { c == ' ' || '\t' <= c <= '\r' }
  predicate IsLetter(c: char) { 'a' <= c <= 'z' || 'A' <= c <= 'Z' }
  predicate IsDigit(c: char) { '0' <= c <= '9' }

  const CAPITALS := "ABCDEFGHIJKLMNOPQRSTUVWXYZ"
  const SMALL_LETTERS := "abcdefghijklmnopqrstuvwxyz"

  /** The letters, digits and blanks of the ASCII alphabet, and the two cases of each letter. */
  lemma Alphabet(c: char)
    ensures IsLetter(c) <==> c in CAPITALS || c in SMALL_LETTERS
    ensures IsDigit(c) <==> c in "0123456789"
    ensures IsSpace(c) <==> c in " \t\n\r" || c as int in {11, 12}
    ensures forall i :: 0 <= i < 26 ==>
              && UpperChar(SMALL_LETTERS[i]) == UpperChar(CAPITALS[i]) == CAPITALS[i]
              && LowerChar(SMALL_LETTERS[i]) == LowerChar(CAPITALS[i]) == SMALL_LETTERS[i]
    ensures !IsLetter(c) ==> UpperChar(c) == LowerChar(c) == c
  {
    InAlphabet(c, 'A', CAPITALS);
    InAlphabet(c, 'a', SMALL_LETTERS);
    InAlphabet(c, '0', "0123456789");
  }

  // A run of consecutive characters is those from its first to its last.
  lemma InAlphabet(c: char, first: char, run: string)
    requires |run| > 0 && forall i :: 0 <= i < |run| ==> run[i] as int == first as int + i
    ensures c in run <==> first <= c <= run[|run| - 1]
  {
    if first <= c <= run[|run| - 1] {
      assert run[c as int - first as int] == c;
    }
  }

  predicate AllDigits(s: string) { forall i :: 0 <= i < |s| ==> IsDigit(s[i]) }
  predicate LettersOrSpaces(s: string) { forall i :: 0 <= i < |s| ==> IsLetter(s[i]) || s[i] == ' ' }

  function UpperChar(c: char): char { if 'a' <= c <= 'z' then c - 'a' + 'A' else c }
  function LowerChar(c: char): char { if 'A' <= c <= 'Z' then c - 'A' + 'a' else c }
  function Upper(s: string): (u: string)
    ensures |u| == |s|
  {
    seq(|s|, i requires 0 <= i < |s| => UpperChar(s[i]))
  }
  function Lower(s: string): string { seq(|s|, i requires 0 <= i < |s| => LowerChar(s[i])) }

  function StripRight(s: string): (r: string)
    ensures |r| <= |s| && r == s[..|r|] && (r != "" ==> !IsSpace(r[|r| - 1]))
    ensures forall i :: |r| <= i < |s| ==> IsSpace(s[i])
  {
    if s != "" && IsSpace(s[|s| - 1]) then StripRight(s[..|s| - 1]) else s
  }

  function StripLeft(s: string): (r: string)
    ensures |r| <= |s| && r == s[|s| - |r|..] && (r != "" ==> !IsSpace(r[0]))
  {
    if s != "" && IsSpace(s[0]) then StripLeft(s[1..]) else s
  }

  function Strip(s: string): string { StripLeft(StripRight(s)) }

  function Spaces(n: nat): (s: string)
    ensures |s| == n && forall i :: 0 <= i < n ==> s[i] == ' '
  {
    seq(n, i => ' ')
  }

  function Pow10(w: nat): nat { if w == 0 then 1 else 10 * Pow10(w - 1) }

  function Digits(n: nat, w: nat): (s: string)
    ensures |s| == w && AllDigits(s)
  {
    if w == 0 then "" else Digits(n / 10, w - 1) + [(n % 10) as char + '0']
  }

  function Read(s: string): nat
    requires AllDigits(s)
  {
    if s == "" then 0 else 10 * Read(s[..|s| - 1]) + (s[|s| - 1] - '0') as nat
  }

  lemma {:induction false} ReadDigits(n: nat, w: nat)
    requires n < Pow10(w)
    ensures Read(Digits(n, w)) == n
  {
    if w > 0 {
      ReadDigits(n / 10, w - 1);
      assert Digits(n, w)[..w - 1] == Digits(n / 10, w - 1);
    }
  }

  // -- Dates -----------------------------------------------------------------------------------

  predicate Leap(year: int) { year % 4 == 0 && (year % 100 != 0 || year % 400 == 0) }

  function DaysIn(year: int, month: int): int {
    if month == 2 then (if Leap(year) then 29 else 28)
    else if month in {4, 6, 9, 11} then 30 else 31
  }

  predicate RealDate(d: Date) { 1 <= d.year <= 9999 && 1 <= d.month <= 12 && 1 <= d.day <= DaysIn(d.year, d.month) }

  /** Thirty days in four of the months, thirty-one in seven, and one more than twenty-eight in February of a leap
      year. */
  lemma RealDateExactly(d: Date)
    ensures RealDate(d) <==> && 1 <= d.year <= 9999 && 1 <= d.month <= 12 && 1 <= d.day
                             && d.day <= if d.month == 2 && Leap(d.year) then 29
                                         else [31, 28, 31, 30, 31, 30, 31, 31, 30, 31, 30, 31][d.month - 1]
  {
  }

  /** Every fourth year is one, but of the centuries only every fourth. */
  lemma LeapYears(century: int, year: int)
    requires 0 <= year < 100
    ensures Leap(100 * century + year) <==> if year == 0 then century % 4 == 0 else year % 4 == 0
  {
    assert (100 * century + year) % 100 == year;
    assert (100 * century) % 400 == 100 * (century % 4);
  }

  // -- Printing --------------------------------------------------------------------------------

  function NormalizeType(text: string): Option<Kind> { KindNamed(Lower(Strip(text))) }

  function KindNamed(kind: string): Option<Kind> {
    if kind == "c" || kind == "call" then Some(Call)
    else if kind == "p" || kind == "put" then Some(Put)
    else None
  }

  /** An option type is named by its word or its initial. */
  lemma KindNames(kind: string)
    ensures KindNamed(kind) == Some(Call) <==> kind == "c" || kind == "call"
    ensures KindNamed(kind) == Some(Put) <==> kind == "p" || kind == "put"
  {
    assert "c"[0] == "call"[0] == 'c' && "p"[0] == "put"[0] == 'p';
  }

  function Root(underlying: string): string { Upper(Strip(underlying)) }
  function Thousandths(strike: real): int { RoundHalfEven(strike * 1000.0) }
  function StrikeOf(thousandths: int): real { thousandths as real / 1000.0 }

  // What keeps a contract from being printed.
  function Unprintable(c: Contract): Option<OsiError> { UnprintableParts(Root(c.underlying), c.strike) }

  function UnprintableParts(root: string, strike: real): Option<OsiError> {
    if root == "" || |root| > 6 then Some(BadRoot)
    else if strike <= 0.0 then Some(BadStrike)
    else if Thousandths(strike) >= STRIKE_LIMIT then Some(StrikeTooLarge)
    else None
  }

  function Stem(root: string, padded: bool): string {
    if padded && |root| < 6 then root + Spaces(6 - |root|) else root
  }

  // Expiry, kind and strike, in fifteen characters.
  function Tail(expiry: Date, kind: Kind, thousandths: nat): (s: string)
    requires RealDate(expiry)
    ensures |s| == TAIL_LENGTH
  {
    Digits(expiry.year % 100, 2) + Digits(expiry.month, 2) + Digits(expiry.day, 2)
    + [if kind.Call? then 'C' else 'P'] + Digits(thousandths, 8)
  }

  lemma RoundNotNegative(x: real)
    requires x >= 0.0
    ensures RoundHalfEven(x) >= 0
  {
  }

  // A contract as its symbol carries it: the root in capitals, the strike in thousandths.
  datatype Listing = Listing(root: string, expiry: Date, kind: Kind, thousandths: int)

  // A root as it is printed: bare, in capitals, and not too long.
  predicate Printed(root: string) {
    1 <= |root| <= 6 && !IsSpace(root[0]) && !IsSpace(root[|root| - 1]) && Root(root) == root
  }

  predicate Writable(l: Listing) { Printed(l.root) && RealDate(l.expiry) && 0 <= l.thousandths < STRIKE_LIMIT }

  function Written(l: Listing, padded: bool): string
    requires Writable(l)
  {
    Stem(l.root, padded) + Tail(l.expiry, l.kind, l.thousandths)
  }

  function ListingOf(c: Contract): Listing { Listing(Root(c.underlying), c.expiry, c.kind, Thousandths(c.strike)) }
  function ContractOf(l: Listing): Contract { Contract(l.root, l.expiry, l.kind, StrikeOf(l.thousandths)) }

  lemma PrintableIsWritable(c: Contract)
    requires RealDate(c.expiry) && Unprintable(c).None?
    ensures Writable(ListingOf(c))
  {
    RootIsPrinted(c.underlying);
    ThousandthsNotNegative(c.strike);
  }

  lemma RootIsPrinted(underlying: string)
    requires 1 <= |Root(underlying)| <= 6
    ensures Printed(Root(underlying))
  {
    RootOfRoot(underlying);
  }

  lemma ThousandthsNotNegative(strike: real)
    requires strike > 0.0
    ensures Thousandths(strike) >= 0
  {
    RoundNotNegative(strike * 1000.0);
  }

  function Print(c: Contract, padded: bool): Result<string, OsiError>
    requires RealDate(c.expiry)
  {
    match Unprintable(c)
    case Some(e) => Err(e)
    case None =>
      PrintableIsWritable(c);
      Ok(Written(ListingOf(c), padded))
  }

  function OsiSymbol(underlying: string, expiry: Date, optionType: string, strike: real,
                     padded: bool): Result<string, OsiError>
    requires RealDate(expiry)
  {
    match NormalizeType(optionType)
    case None => Err(BadType)
    case Some(kind) => Print(Contract(underlying, expiry, kind, strike), padded)
  }

  /** A symbol in the padded spelling has 21 characters, and in the other as many as the root and 15 more. */
  lemma WrittenLength(l: Listing, padded: bool)
    requires Writable(l)
    ensures |Written(l, padded)| == if padded then 21 else |l.root| + 15
  {
  }

  // -- Parsing ---------------------------------------------------------------------------------

  // The pattern also matches in front of one final line break.
  function Body(text: string): string { if text != "" && text[|text| - 1] == '\n' then text[..|text| - 1] else text }

  function StemOf(body: string): string
    requires |body| >= TAIL_LENGTH
  {
    body[..|body| - TAIL_LENGTH]
  }

  function TailOf(body: string): (tail: string)
    requires |body| >= TAIL_LENGTH
    ensures |tail| == TAIL_LENGTH
  {
    body[|body| - TAIL_LENGTH..]
  }

  // A root of one to six letters or spaces, and any spaces after it.
  predicate FitsStem(stem: string) { stem != "" && LettersOrSpaces(stem) && |StripRight(stem)| <= 6 }

  // Six digits, the kind, and eight digits.
  predicate FitsTail(tail: string) {
    |tail| == TAIL_LENGTH && AllDigits(tail[..6]) && tail[6] in {'C', 'P'} && AllDigits(tail[7..])
  }

  predicate Fits(body: string) { |body| > TAIL_LENGTH && FitsStem(StemOf(body)) && FitsTail(TailOf(body)) }

  predicate IsOsi(text: string) { Fits(Body(text)) }

  predicate LetterOrBlank(c: char) { c == ' ' || c in CAPITALS || c in SMALL_LETTERS }

  // Letters and blanks, only blanks after the sixth of them, six digits, a C or a P, and eight digits.
  ghost predicate Shaped(body: string, n: int) {
    && n >= 1 && |body| == n + 15
    && (forall i :: 0 <= i < n ==> LetterOrBlank(body[i])) && (forall i :: 6 <= i < n ==> body[i] == ' ')
    && (forall i :: n <= i < n + 15 && i != n + 6 ==> body[i] in "0123456789") && body[n + 6] in "CP"
  }

  /** A text names a contract exactly when it is so shaped, but for one line break at its end. */
  lemma OsiExactly(text: string, body: string)
    requires if text != "" && text[|text| - 1] == '\n' then text == body + "\n" else text == body
    ensures IsOsi(text) <==> Shaped(body, |body| - 15)
  {
    BodyIs(text, body);
    FitsExactly(body);
  }

  lemma BodyIs(text: string, body: string)
    requires if text != "" && text[|text| - 1] == '\n' then text == body + "\n" else text == body
    ensures Body(text) == body
  {
    assert (body + "\n")[..|body|] == body;
  }

  lemma FitsExactly(body: string)
    ensures Fits(body) <==> Shaped(body, |body| - 15)
  {
    if |body| > TAIL_LENGTH {
      StemExactly(StemOf(body));
      TailExactly(TailOf(body));
      SplitsShape(body);
    }
  }

  lemma LettersExactly(stem: string)
    ensures LettersOrSpaces(stem) <==> forall i :: 0 <= i < |stem| ==> LetterOrBlank(stem[i])
  {
    forall i | 0 <= i < |stem| ensures LetterOrBlank(stem[i]) <==> IsLetter(stem[i]) || stem[i] == ' ' {
      Alphabet(stem[i]);
    }
  }

  lemma ShortStem(stem: string)
    requires LettersOrSpaces(stem)
    ensures |StripRight(stem)| <= 6 <==> forall i :: 6 <= i < |stem| ==> stem[i] == ' '
  {
    var r := StripRight(stem);
    if |r| <= 6 {
      forall i | 6 <= i < |stem| ensures stem[i] == ' ' { assert IsSpace(stem[i]) && !IsLetter(stem[i]); }
    } else {
      assert stem[|r| - 1] == r[|r| - 1] && !IsSpace(r[|r| - 1]);
    }
  }

  lemma StemExactly(stem: string)
    requires stem != ""
    ensures FitsStem(stem)
            <==> && (forall i :: 0 <= i < |stem| ==> LetterOrBlank(stem[i]))
                 && (forall i :: 6 <= i < |stem| ==> stem[i] == ' ')
  {
    LettersExactly(stem);
    if LettersOrSpaces(stem) { ShortStem(stem); }
  }

  lemma TailExactly(tail: string)
    requires |tail| == TAIL_LENGTH
    ensures FitsTail(tail)
            <==> (forall i :: 0 <= i < 15 && i != 6 ==> tail[i] in "0123456789") && tail[6] in "CP"
  {
    forall i | 0 <= i < 15 ensures IsDigit(tail[i]) <==> tail[i] in "0123456789" { Alphabet(tail[i]); }
    if FitsTail(tail) {
      forall i | 0 <= i < 15 && i != 6 ensures IsDigit(tail[i]) {
        if i < 6 { assert tail[..6][i] == tail[i]; } else { assert tail[7..][i - 7] == tail[i]; }
      }
    }
  }

  lemma SplitsShape(body: string)
    requires |body| > TAIL_LENGTH
    ensures var n := |body| - 15;
            && (forall i :: 0 <= i < n ==> StemOf(body)[i] == body[i])
            && (forall i :: 0 <= i < 15 ==> TailOf(body)[i] == body[n + i])
            && (forall i :: n <= i < n + 15 ==> body[i] == TailOf(body)[i - n])
  {
  }

  lemma DigitPairs(tail: string)
    requires FitsTail(tail)
    ensures AllDigits(tail[0..2]) && AllDigits(tail[2..4]) && AllDigits(tail[4..6])
  {
    assert tail[0..2] == tail[..6][0..2] && tail[2..4] == tail[..6][2..4] && tail[4..6] == tail[..6][4..6];
  }

  function ScannedTail(root: string, tail: string): Listing
    requires FitsTail(tail)
  {
    DigitPairs(tail);
    var expiry := Date(2000 + Read(tail[0..2]), Read(tail[2..4]), Read(tail[4..6]));
    Listing(root, expiry, if tail[6] == 'C' then Call else Put, Read(tail[7..]))
  }

  function Scanned(text: string): Listing
    requires IsOsi(text)
  {
    ScannedTail(Root(StemOf(Body(text))), TailOf(Body(text)))
  }

  function ParseOsi(text: string): Result<Contract, OsiError> {
    if !IsOsi(text) then Err(NotOsi)
    else if !RealDate(Scanned(text).expiry) then Err(BadDate)
    else Ok(ContractOf(Scanned(text)))
  }

  function ToOsiForm(text: string, padded: bool): Result<string, OsiError> {
    if !IsOsi(text) then Ok(text)
    else
      match ParseOsi(text)
      case Err(e) => Err(e)
      case Ok(c) => Print(c, padded)
  }

  // -- Inverses --------------------------------------------------------------------------------

  lemma NothingToStrip(s: string)
    requires s != "" ==> !IsSpace(s[0]) && !IsSpace(s[|s| - 1])
    ensures Strip(s) == s
  {
  }

  lemma {:induction false} StripsSpaces(s: string, n: nat)
    requires s != "" ==> !IsSpace(s[|s| - 1])
    ensures StripRight(s + Spaces(n)) == s
  {
    if n > 0 {
      assert (s + Spaces(n))[..|s| + n - 1] == s + Spaces(n - 1);
      StripsSpaces(s, n - 1);
    } else {
      assert s + Spaces(0) == s;
    }
  }

  lemma StrippedEnds(s: string)
    ensures Strip(s) != "" ==> !IsSpace(Strip(s)[0]) && !IsSpace(Strip(s)[|Strip(s)| - 1])
  {
    var r := StripRight(s);
    var l := StripLeft(r);
    assert l != "" ==> l[|l| - 1] == r[|r| - 1];
  }

  lemma UpperKeeps(s: string)
    ensures Upper(Upper(s)) == Upper(s)
    ensures LettersOrSpaces(Upper(s)) <==> LettersOrSpaces(s)
    ensures forall i :: 0 <= i < |s| ==> (IsSpace(Upper(s)[i]) <==> IsSpace(s[i]))
  {
    forall i | 0 <= i < |s| ensures (IsLetter(Upper(s)[i]) <==> IsLetter(s[i]))
      && (IsSpace(Upper(s)[i]) <==> IsSpace(s[i])) {}
    if LettersOrSpaces(Upper(s)) {
      forall i | 0 <= i < |s| ensures IsLetter(s[i]) || s[i] == ' ' {
        assert IsLetter(Upper(s)[i]) || Upper(s)[i] == ' ';
      }
    }
  }

  // A printed root stays what it is when it is read back.
  lemma RootOfRoot(underlying: string)
    ensures var root := Root(underlying); Strip(root) == root && Upper(root) == root
    ensures Root(underlying) != "" ==>
            !IsSpace(Root(underlying)[0]) && !IsSpace(Root(underlying)[|Root(underlying)| - 1])
  {
    StrippedEnds(underlying);
    UpperKeeps(Strip(underlying));
    NothingToStrip(Root(underlying));
  }

  lemma StemReadsBack(root: string, padded: bool)
    requires 1 <= |root| <= 6 && !IsSpace(root[0]) && !IsSpace(root[|root| - 1])
    ensures var stem := Stem(root, padded); StripRight(stem) == root && Strip(stem) == root && |stem| >= 1
    ensures LettersOrSpaces(Stem(root, padded)) <==> LettersOrSpaces(root)
  {
    if padded && |root| < 6 {
      StripsSpaces(root, 6 - |root|);
      var stem := Stem(root, padded);
      assert forall i :: 0 <= i < |root| ==> stem[i] == root[i];
    }
    NothingToStrip(root);
  }

  lemma TailParts(expiry: Date, kind: Kind, thousandths: nat)
    requires RealDate(expiry) && thousandths < STRIKE_LIMIT
    ensures var tail := Tail(expiry, kind, thousandths);
            && tail[..6] == Digits(expiry.year % 100, 2) + Digits(expiry.month, 2) + Digits(expiry.day, 2)
            && tail[0..2] == Digits(expiry.year % 100, 2) && tail[2..4] == Digits(expiry.month, 2)
            && tail[4..6] == Digits(expiry.day, 2) && tail[7..] == Digits(thousandths, 8)
            && tail[6] == if kind.Call? then 'C' else 'P'
  {
  }

  /** A symbol carries two digits each of the year, the month and the day, the kind, and the strike in eight digits. */
  lemma TailReadsBack(expiry: Date, kind: Kind, thousandths: nat)
    requires RealDate(expiry) && thousandths < STRIKE_LIMIT
    ensures var tail := Tail(expiry, kind, thousandths);
            && AllDigits(tail[..6]) && tail[6] in {'C', 'P'} && AllDigits(tail[7..])
            && Read(tail[0..2]) == expiry.year % 100 && Read(tail[2..4]) == expiry.month
              && Read(tail[4..6]) == expiry.day
            && (tail[6] == 'C' <==> kind.Call?) && Read(tail[7..]) == thousandths
  {
    TailParts(expiry, kind, thousandths);
    assert Pow10(2) == 100 && Pow10(8) == STRIKE_LIMIT by { assert Pow10(4) == 10000; }
    ReadDigits(expiry.year % 100, 2);
    ReadDigits(expiry.month, 2);
    ReadDigits(expiry.day, 2);
    ReadDigits(thousandths, 8);
  }

  predicate WholeThousandths(strike: real) { (strike * 1000.0).Floor as real == strike * 1000.0 }

  lemma ThousandthsExact(strike: real)
    ensures StrikeOf(Thousandths(strike)) == strike <==> WholeThousandths(strike)
  {
    RoundHalfEvenFixes(strike * 1000.0);
  }

  lemma EndsInADigit(stem: string, tail: string)
    requires FitsTail(tail)
    ensures Body(stem + tail) == stem + tail && StemOf(stem + tail) == stem && TailOf(stem + tail) == tail
  {
    assert (stem + tail)[|stem + tail| - 1] == tail[14] == tail[7..][7];
    assert IsDigit(tail[7..][7]);
  }

  lemma StemFits(root: string, padded: bool)
    requires Printed(root)
    ensures FitsStem(Stem(root, padded)) <==> LettersOrSpaces(root)
    ensures Root(Stem(root, padded)) == root
  {
    StemReadsBack(root, padded);
  }

  lemma TailScansBack(l: Listing)
    requires Writable(l)
    ensures var tail := Tail(l.expiry, l.kind, l.thousandths);
            && FitsTail(tail)
            && ScannedTail(l.root, tail) == l.(expiry := l.expiry.(year := 2000 + l.expiry.year % 100))
  {
    TailReadsBack(l.expiry, l.kind, l.thousandths);
  }

  /** What is written is read back, up to the century, exactly where the root is letters and spaces. */
  lemma WrittenScansBack(l: Listing, padded: bool)
    requires Writable(l)
    ensures IsOsi(Written(l, padded)) <==> LettersOrSpaces(l.root)
    ensures IsOsi(Written(l, padded)) ==>
            Scanned(Written(l, padded)) == l.(expiry := l.expiry.(year := 2000 + l.expiry.year % 100))
  {
    var stem, tail := Stem(l.root, padded), Tail(l.expiry, l.kind, l.thousandths);
    StemFits(l.root, padded);
    TailScansBack(l);
    EndsInADigit(stem, tail);
  }

  lemma SameCentury(d: Date)
    ensures d.(year := 2000 + d.year % 100) == d <==> 2000 <= d.year <= 2099
  {
  }

  lemma WrittenScansExactly(l: Listing, padded: bool)
    requires Writable(l) && LettersOrSpaces(l.root) && 2000 <= l.expiry.year <= 2099
    ensures IsOsi(Written(l, padded)) && Scanned(Written(l, padded)) == l
  {
    WrittenScansBack(l, padded);
    SameCentury(l.expiry);
  }

  // A contract whose symbol says all there is to say about it.
  predicate Nameable(c: Contract) {
    LettersOrSpaces(Root(c.underlying)) && 2000 <= c.expiry.year <= 2099 && WholeThousandths(c.strike)
  }

  // The contract with its root as it is printed.
  function Canonical(c: Contract): Contract { c.(underlying := Root(c.underlying)) }

  lemma ListingLosesNothing(c: Contract)
    ensures ContractOf(ListingOf(c)) == Canonical(c) <==> WholeThousandths(c.strike)
  {
    ThousandthsExact(c.strike);
  }

  // What a written listing parses to.
  lemma ParsesTo(l: Listing, padded: bool)
    requires Writable(l)
    ensures ParseOsi(Written(l, padded)) == Ok(ContractOf(l))
            <==> LettersOrSpaces(l.root) && 2000 <= l.expiry.year <= 2099
    ensures ParseOsi(Written(l, padded)).Ok? ==>
              ParseOsi(Written(l, padded)).value
                == ContractOf(l.(expiry := l.expiry.(year := 2000 + l.expiry.year % 100)))
  {
    WrittenScansBack(l, padded);
    ParsesAs(Written(l, padded), l);
  }

  lemma ParsesAs(text: string, l: Listing)
    requires RealDate(l.expiry) && (IsOsi(text) <==> LettersOrSpaces(l.root))
    requires IsOsi(text) ==> Scanned(text) == l.(expiry := l.expiry.(year := 2000 + l.expiry.year % 100))
    ensures ParseOsi(text) == Ok(ContractOf(l)) <==> LettersOrSpaces(l.root) && 2000 <= l.expiry.year <= 2099
    ensures ParseOsi(text).Ok? ==>
            ParseOsi(text).value == ContractOf(l.(expiry := l.expiry.(year := 2000 + l.expiry.year % 100)))
  {
    SameCentury(l.expiry);
    var later := l.(expiry := l.expiry.(year := 2000 + l.expiry.year % 100));
    assert ContractOf(later).expiry == later.expiry && ContractOf(l).expiry == l.expiry;
  }

  /** Parsing undoes printing, in both spellings, exactly for roots of letters and spaces, years of this
      century and strikes on the thousandth grid. */
  lemma ParseUndoesPrint(c: Contract, padded: bool)
    requires RealDate(c.expiry) && Unprintable(c).None?
    ensures Print(c, padded).Ok? && (ParseOsi(Print(c, padded).value) == Ok(Canonical(c)) <==> Nameable(c))
  {
    var l := ListingOf(c);
    PrintableIsWritable(c);
    ParsesTo(l, padded);
    ListingLosesNothing(c);
    SameCentury(c.expiry);
    assert Print(c, padded) == Ok(Written(l, padded));
    var later := l.(expiry := l.expiry.(year := 2000 + l.expiry.year % 100));
    assert ContractOf(later) == ContractOf(l).(expiry := later.expiry);
  }

  // What the parser calls a kind.
  function TypeName(kind: Kind): string { if kind.Call? then "call" else "put" }

  lemma TypeNameNormalizes(kind: Kind)
    ensures NormalizeType(TypeName(kind)) == Some(kind)
  {
    var name := TypeName(kind);
    NothingToStrip(name);
    assert Lower(name) == name;
  }

  /** A symbol is built exactly for a known option type and a printable contract; and from text to text it reads
      back, so that building it again from what was parsed gives the same symbol, exactly for nameable contracts. */
  lemma OsiSymbolReadsBack(underlying: string, expiry: Date, optionType: string, strike: real, padded: bool)
    requires RealDate(expiry)
    ensures var r, kind := OsiSymbol(underlying, expiry, optionType, strike, padded), NormalizeType(optionType);
            && (r.Ok? <==> kind.Some? && Unprintable(Contract(underlying, expiry, kind.value, strike)).None?)
            && (r.Ok? ==>
                  var c := Contract(underlying, expiry, kind.value, strike);
                  (ParseOsi(r.value) == Ok(Canonical(c)) <==> Nameable(c))
                  && (Nameable(c) ==> OsiSymbol(Root(underlying), expiry, TypeName(c.kind), strike, padded) == r))
  {
    var kind := NormalizeType(optionType);
    if kind.Some? {
      var c := Contract(underlying, expiry, kind.value, strike);
      TypeNameNormalizes(c.kind);
      if Unprintable(c).None? {
        ParseUndoesPrint(c, padded);
        CanonicalPrintsTheSame(c, padded);
      }
    }
  }

  /** Distinct contracts never share a symbol, whichever spelling each is printed in. */
  lemma SymbolsAreDistinct(a: Contract, b: Contract, p: bool, q: bool)
    requires RealDate(a.expiry) && Unprintable(a).None? && Nameable(a)
    requires RealDate(b.expiry) && Unprintable(b).None? && Nameable(b)
    requires Print(a, p) == Print(b, q)
    ensures Canonical(a) == Canonical(b)
  {
    ParseUndoesPrint(a, p);
    ParseUndoesPrint(b, q);
  }

  lemma CanonicalPrintsTheSame(c: Contract, padded: bool)
    requires RealDate(c.expiry) && Unprintable(c).None?
    ensures Print(Canonical(c), padded) == Print(c, padded)
  {
    RootOfRoot(c.underlying);
    SameRootPrintsTheSame(c, Canonical(c), padded);
  }

  lemma SameRootPrintsTheSame(a: Contract, b: Contract, padded: bool)
    requires RealDate(a.expiry) && b == a.(underlying := b.underlying) && Root(a.underlying) == Root(b.underlying)
    ensures Print(a, padded) == Print(b, padded)
  {
    assert ListingOf(a) == ListingOf(b);
  }

  /** Re-spelling a symbol gives the symbol in the other spelling, so there and back is the identity. */
  lemma RespellingPrintsTheOther(c: Contract, from: bool, to: bool)
    requires RealDate(c.expiry) && Unprintable(c).None? && Nameable(c)
    ensures Print(c, from).Ok? && ToOsiForm(Print(c, from).value, to) == Print(c, to)
  {
    ParseUndoesPrint(c, from);
    CanonicalPrintsTheSame(c, to);
  }

  lemma StrikeFacts(n: nat)
    ensures Thousandths(StrikeOf(n)) == n && (StrikeOf(n) > 0.0 <==> n > 0)
  {
    var x := StrikeOf(n) * 1000.0;
    assert x == n as real;
    FloorOfInt(n);
    RoundHalfEvenFixes(x);
  }

  lemma PartOfLetters(stem: string)
    requires LettersOrSpaces(stem)
    ensures LettersOrSpaces(Strip(stem)) && |Strip(stem)| <= |StripRight(stem)|
  {
    var r := StripRight(stem);
    forall i | 0 <= i < |r| ensures IsLetter(r[i]) || r[i] == ' ' { assert r[i] == stem[i]; }
    SuffixOfLetters(r, |r| - |StripLeft(r)|);
  }

  lemma SuffixOfLetters(s: string, k: nat)
    requires LettersOrSpaces(s) && k <= |s|
    ensures LettersOrSpaces(s[k..])
  {
    forall i | 0 <= i < |s| - k ensures IsLetter(s[k..][i]) || s[k..][i] == ' ' { assert s[k..][i] == s[k + i]; }
  }

  lemma {:induction false} ReadWithin(s: string)
    requires AllDigits(s)
    ensures Read(s) < Pow10(|s|)
  {
    if s != "" {
      ReadWithin(s[..|s| - 1]);
    }
  }

  lemma TailWithin(root: string, tail: string)
    requires FitsTail(tail)
    ensures var l := ScannedTail(root, tail); 2000 <= l.expiry.year <= 2099 && 0 <= l.thousandths < STRIKE_LIMIT
  {
    DigitPairs(tail);
    ReadWithin(tail[0..2]);
    ReadWithin(tail[7..]);
    assert Pow10(2) == 100 && Pow10(8) == STRIKE_LIMIT by { assert Pow10(4) == 10000; }
  }

  lemma StemWithin(stem: string)
    requires FitsStem(stem)
    ensures LettersOrSpaces(Root(stem)) && (Root(stem) == "" || Printed(Root(stem)))
  {
    PartOfLetters(stem);
    UpperKeeps(Strip(stem));
    if Root(stem) != "" {
      RootIsPrinted(stem);
    }
  }

  // Whatever is scanned out of a symbol has a root that prints as it is and a strike that fits.
  lemma ScannedFits(text: string)
    requires IsOsi(text)
    ensures var l := Scanned(text);
            && LettersOrSpaces(l.root) && (l.root == "" || Printed(l.root))
            && 2000 <= l.expiry.year <= 2099 && 0 <= l.thousandths < STRIKE_LIMIT
  {
    var stem := StemOf(Body(text));
    StemWithin(stem);
    TailWithin(Root(stem), TailOf(Body(text)));
  }

  lemma PrintedStays(root: string)
    requires root == "" || Printed(root)
    ensures Root(root) == root && |root| <= 6
  {
  }

  lemma PrintableParts(root: string, strike: real, n: nat)
    requires |root| <= 6 && Thousandths(strike) == n < STRIKE_LIMIT && (strike > 0.0 <==> n > 0)
    ensures UnprintableParts(root, strike).None? <==> root != "" && n > 0
  {
  }

  lemma ListingBack(l: Listing)
    requires Root(l.root) == l.root && Thousandths(StrikeOf(l.thousandths)) == l.thousandths
    ensures ListingOf(ContractOf(l)) == l
    ensures Unprintable(ContractOf(l)) == UnprintableParts(l.root, StrikeOf(l.thousandths))
  {
  }

  lemma BackWithRoot(l: Listing, root: string, n: nat)
    requires l.root == root && l.thousandths == n && Root(root) == root && |root| <= 6 && n < STRIKE_LIMIT
    ensures ListingOf(ContractOf(l)) == l
    ensures Unprintable(ContractOf(l)).None? <==> root != "" && n > 0
  {
    StrikeFacts(n);
    ListingBack(l);
    PrintableParts(root, StrikeOf(n), n);
  }

  lemma ScannedReprints(text: string)
    requires IsOsi(text)
    ensures var l := Scanned(text);
            && ListingOf(ContractOf(l)) == l
            && (Unprintable(ContractOf(l)).None? <==> l.root != "" && l.thousandths > 0)
  {
    var l := Scanned(text);
    ScannedRoot(text, l.root, l.thousandths);
    BackWithRoot(l, l.root, l.thousandths);
  }

  lemma ScannedRoot(text: string, root: string, thousandths: int)
    requires IsOsi(text) && Scanned(text).root == root && Scanned(text).thousandths == thousandths
    ensures Root(root) == root && |root| <= 6 && 0 <= thousandths < STRIKE_LIMIT
  {
    ScannedFits(text);
    PrintedStays(root);
  }

  // A symbol that can be re-spelled at all is re-spelled as what was scanned out of it.
  lemma RespelledAs(text: string, padded: bool)
    requires IsOsi(text)
    ensures var l := Scanned(text);
            if RealDate(l.expiry) && l.root != "" && l.thousandths > 0 then
              Writable(l) && ToOsiForm(text, padded) == Ok(Written(l, padded))
            else ToOsiForm(text, padded).Err?
  {
    ScannedReprints(text);
    ScannedFits(text);
  }

  /** Re-spelling leaves a string that names no contract alone; otherwise it succeeds exactly where the
      symbol holds a real date, a root and a strike, and re-spelling what it gave changes nothing. */
  lemma RespellingIsIdempotent(text: string, padded: bool)
    ensures !IsOsi(text) ==> ToOsiForm(text, padded) == Ok(text)
    ensures IsOsi(text) ==>
              (ToOsiForm(text, padded).Ok? <==>
                 var l := Scanned(text); RealDate(l.expiry) && l.root != "" && l.thousandths > 0)
    ensures ToOsiForm(text, padded).Ok? ==> ToOsiForm(ToOsiForm(text, padded).value, padded) == ToOsiForm(text, padded)
  {
    if IsOsi(text) {
      var l := Scanned(text);
      RespelledAs(text, padded);
      if RealDate(l.expiry) && l.root != "" && l.thousandths > 0 {
        ScannedFits(text);
        WrittenRespellsAsItself(l, padded);
      }
    }
  }

  lemma WrittenRespellsAsItself(l: Listing, padded: bool)
    requires Writable(l) && LettersOrSpaces(l.root) && 2000 <= l.expiry.year <= 2099 && l.thousandths > 0
    ensures ToOsiForm(Written(l, padded), padded) == Ok(Written(l, padded))
  {
    WrittenScansExactly(l, padded);
    RespelledAs(Written(l, padded), padded);
  }
}
