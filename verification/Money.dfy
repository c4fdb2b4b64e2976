/** Prices of the merchant feed: the printer, the validator's price grammar, and the shipping
    annotation with the splitter that reads it back. */
module Money {
  import opened Common
  import opened Text

  datatype Money = Money(amountCents: int, currency: string)

  /** Go's integer / and % truncate toward zero. */
  function GoDiv(a: int, b: int): int
    requires b > 0
  {
    if a < 0 then -(-a / b) else a / b
  }

  function GoMod(a: int, b: int): int
    requires b > 0
  {
    a - GoDiv(a, b) * b
  }

  /** "%02d": at least two characters, the sign included. */
  function Pad2(n: int): string {
    var s := FormatInt(n);
    if |s| < 2 then "0" + s else s
  }

  /** Money.Format. */
  function Format(m: Money): string {
    if m.amountCents == 0 then "0.00 " + m.currency
    else FormatInt(GoDiv(m.amountCents, 100)) + "." + Pad2(GoMod(m.amountCents, 100)) + " " + m.currency
  }

  predicate IsUpper(c: char) {
    'A' <= c <= 'Z'
  }

  predicate IsCurrency(s: string) {
    |s| == 3 && IsUpper(s[0]) && IsUpper(s[1]) && IsUpper(s[2])
  }

  /** priceRegexp: one or more digits, a point, two digits, a space, three capitals. */
  predicate MatchesPrice(s: string) {
    && |s| >= 8
    && AllDigits(s[..|s| - 7])
    && s[|s| - 7] == '.' && IsDigit(s[|s| - 6]) && IsDigit(s[|s| - 5])
    && s[|s| - 4] == ' '
    && IsCurrency(s[|s| - 3..])
  }

  /** What a price string in the grammar denotes. */
  function ParsePrice(s: string): Option<Money> {
    if !MatchesPrice(s) then None
    else
      var n := |s| - 7;
      Some(Money(ParseDigits(s[..n]) * 100 + ParseDigits(s[n + 1..n + 3]), s[n + 4..]))
  }

  function ExtractCurrency(price: string): string {
    var parts := Fields(price);
    if |parts| == 2 then parts[1] else ""
  }

  lemma DigitsLength(n: nat)
    ensures n < 10 ==> |Digits(n)| == 1
    ensures 10 <= n < 100 ==> |Digits(n)| == 2
  {
  }

  lemma Pad2Digits(n: nat)
    requires n < 100
    ensures |Pad2(n)| == 2 && AllDigits(Pad2(n)) && ParseDigits(Pad2(n)) == n
  {
    DigitsLength(n);
    ParseDigitsInverts(n);
    var s := Digits(n);
    if n < 10 {
      assert ("0" + s)[..1] == "0" && "0"[..0] == "";
      assert ParseDigits("0") == 0;
      assert s[..0] == "";
    }
  }

  /** The pieces every printed price is made of. */
  lemma FormatShape(m: Money)
    ensures Format(m) == FormatInt(GoDiv(m.amountCents, 100)) + "." + Pad2(GoMod(m.amountCents, 100)) + " " + m.currency
  {
  }

  lemma GoDivMod(a: int)
    ensures a >= 0 ==> GoDiv(a, 100) == a / 100 && GoMod(a, 100) == a % 100
    ensures a < 0 ==> GoDiv(a, 100) < 0 || (GoDiv(a, 100) == 0 && GoMod(a, 100) < 0)
  {
  }

  lemma DigitsUpTo(s: string, n: nat, i: nat)
    requires i < n <= |s| && AllDigits(s[..n])
    ensures IsDigit(s[i])
  {
    assert s[..n][i] == s[i];
  }

  /** In a price made of digits, a point, two characters and a space, the grammar can only
      match with its point on the printed one. */
  lemma PointIsForced(whole: string, frac: string, currency: string)
    requires whole != [] && AllDigits(whole) && frac != []
    ensures var s := whole + "." + frac + " " + currency;
            MatchesPrice(s) ==> |s| - 7 == |whole| && IsDigit(frac[0])
  {
    var s := whole + "." + frac + " " + currency;
    assert s[|whole|] == '.' && s[|whole| + 1] == frac[0];
    assert forall i :: 0 <= i < |whole| ==> s[i] == whole[i];
    var n := |s| - 7;
    if MatchesPrice(s) && n > |whole| { DigitsUpTo(s, n, |whole|); }
  }

  /** A price of digits with two cents matches exactly when its currency is three capitals. */
  lemma DigitsMatch(s: string, whole: string, frac: string, currency: string)
    requires s == whole + "." + frac + " " + currency
    requires whole != [] && AllDigits(whole) && |frac| == 2 && AllDigits(frac)
    ensures MatchesPrice(s) <==> IsCurrency(currency)
  {
    var n := |whole|;
    PointIsForced(whole, frac, currency);
    assert s[..n] == whole && s[n] == '.' && s[n + 1] == frac[0] && s[n + 2] == frac[1] && s[n + 3] == ' ';
    assert s[n + 4..] == currency;
  }

  /** A price whose amount is negative does not match: its first or its cents' first character is a sign. */
  lemma SignsDoNotMatch(s: string, whole: string, frac: string, currency: string)
    requires s == whole + "." + frac + " " + currency && whole != [] && frac != []
    requires !IsDigit(whole[0]) || (AllDigits(whole) && !IsDigit(frac[0]))
    ensures !MatchesPrice(s)
  {
    assert s[0] == whole[0];
    if !IsDigit(whole[0]) {
      if MatchesPrice(s) { DigitsUpTo(s, |s| - 7, 0); }
    } else {
      PointIsForced(whole, frac, currency);
    }
  }

  /** A printed price is in the validator's grammar exactly when the amount is not negative
      and the currency is three capital letters. */
  lemma FormatMatchesExactly(m: Money)
    ensures MatchesPrice(Format(m)) <==> m.amountCents >= 0 && IsCurrency(m.currency)
    ensures MatchesPrice(Format(m)) <==>
      m.amountCents >= 0 && |m.currency| == 3 && forall i :: 0 <= i < 3 ==> 'A' <= m.currency[i] <= 'Z'
  {
    FormatShape(m);
    GoDivMod(m.amountCents);
    var whole, frac := FormatInt(GoDiv(m.amountCents, 100)), Pad2(GoMod(m.amountCents, 100));
    if m.amountCents >= 0 {
      Pad2Digits(m.amountCents % 100);
      DigitsMatch(Format(m), whole, frac, m.currency);
    } else {
      SignsDoNotMatch(Format(m), whole, frac, m.currency);
    }
  }

  /** The grammar reads back exactly the amount and currency that were printed. */
  lemma ParseInvertsFormat(m: Money)
    requires m.amountCents >= 0 && IsCurrency(m.currency)
    ensures ParsePrice(Format(m)) == Some(m)
  {
    var s, whole, frac := Format(m), FormatInt(m.amountCents / 100), Pad2(m.amountCents % 100);
    assert MatchesPrice(s) by { FormatMatchesExactly(m); }
    Pad2Digits(m.amountCents % 100);
    assert s[..|s| - 7] == whole && s[|s| - 6..|s| - 4] == frac && s[|s| - 3..] == m.currency by {
      PriceIsPieces(m);
      PricePieces(s, whole, frac, m.currency);
    }
    ParsedAs(s, whole, frac, m.currency);
    ParseDigitsInverts(m.amountCents / 100);
  }

  lemma PriceIsPieces(m: Money)
    requires m.amountCents >= 0
    ensures Format(m) == FormatInt(m.amountCents / 100) + "." + Pad2(m.amountCents % 100) + " " + m.currency
  {
    FormatShape(m);
    GoDivMod(m.amountCents);
  }

  lemma PricePieces(s: string, whole: string, frac: string, currency: string)
    requires s == whole + "." + frac + " " + currency && |frac| == 2 && |currency| == 3
    ensures |s| - 7 == |whole| && s[..|s| - 7] == whole && s[|s| - 6..|s| - 4] == frac && s[|s| - 3..] == currency
  {
  }

  lemma ParsedAs(s: string, whole: string, frac: string, currency: string)
    requires MatchesPrice(s) && AllDigits(whole) && AllDigits(frac)
    requires s[..|s| - 7] == whole && s[|s| - 6..|s| - 4] == frac && s[|s| - 3..] == currency
    ensures ParsePrice(s) == Some(Money(ParseDigits(whole) * 100 + ParseDigits(frac), currency))
  {
    var n := |s| - 7;
    assert s[n + 1..n + 3] == frac && s[n + 4..] == currency;
  }

  lemma DigitsAreWord(n: int)
    ensures IsWord(FormatInt(n))
  {
    if n < 0 { assert FormatInt(n)[1..] == Digits(-n); }
    forall i | 0 <= i < |FormatInt(n)| ensures !IsSpace(FormatInt(n)[i]) {
      if n < 0 && i > 0 { assert FormatInt(n)[i] == Digits(-n)[i - 1]; }
    }
  }

  lemma PaddedIsWord(n: int)
    ensures IsWord(Pad2(n))
  {
    DigitsAreWord(n);
  }

  lemma JoinedWord(whole: string, frac: string)
    requires IsWord(whole) && IsWord(frac)
    ensures IsWord(whole + "." + frac)
  {
    var a := whole + "." + frac;
    forall i | 0 <= i < |a| ensures !IsSpace(a[i]) {
      if i > |whole| { assert a[i] == frac[i - |whole| - 1]; }
    }
  }

  lemma SecondWordIsCurrency(price: string, amount: string, currency: string)
    requires price == amount + " " + currency && IsWord(amount) && IsWord(currency)
    ensures ExtractCurrency(price) == currency
  {
    FieldsOfTwoWords(amount, currency);
  }

  /** The validator's currency check reads the currency that was printed. */
  lemma CurrencyIsExtracted(m: Money)
    requires IsWord(m.currency)
    ensures ExtractCurrency(Format(m)) == m.currency
  {
    var whole, frac := FormatInt(GoDiv(m.amountCents, 100)), Pad2(GoMod(m.amountCents, 100));
    DigitsAreWord(GoDiv(m.amountCents, 100));
    PaddedIsWord(GoMod(m.amountCents, 100));
    JoinedWord(whole, frac);
    FormatShape(m);
    SecondWordIsCurrency(Format(m), whole + "." + frac, m.currency);
  }

  // ----- Shipping -----

  datatype Shipping = Shipping(country: string, service: string, price: Money)

  /** The RSS element; all fields empty when the annotation does not have three parts. */
  datatype RssShipping = RssShipping(country: string, service: string, price: string)

  /** MerchantShipping.Format. */
  function FormatShipping(s: Shipping): string {
    s.country + ":" + s.service + ":" + Format(s.price)
  }

  /** In a piece followed by its separator, the separator occurs first where the piece ends. */
  ghost predicate CutFirst(piece: string, sep: string) {
    forall k :: k < |piece| ==> !OccursAt(piece + sep, sep, k)
  }

  /** Pieces cut at the first n - 1 separators. */
  ghost predicate IsSplit(s: string, sep: string, n: int, out: seq<string>) {
    && out != [] && Join(out, sep) == s
    && (forall i :: 0 <= i < |out| - 1 ==> CutFirst(out[i], sep))
    && (|out| == n || (|out| < n && !Contains(out[|out| - 1], sep)) || (n <= 1 && |out| == 1))
  }

  lemma NotContainsFree(s: string, c: char)
    ensures Free(s, c) <==> !Contains(s, [c])
  {
    if !Free(s, c) {
      var i :| 0 <= i < |s| && s[i] == c;
      assert s[i..i + 1] == [c] && OccursAt(s, [c], i);
    }
    if Contains(s, [c]) {
      var i :| OccursAt(s, [c], i);
      assert s[i] == s[i..i + 1][0];
    }
  }

  lemma CutFirstFree(piece: string, c: char)
    ensures CutFirst(piece, [c]) <==> Free(piece, c)
  {
    var s := piece + [c];
    forall k | 0 <= k < |piece| ensures OccursAt(s, [c], k) <==> piece[k] == c {
      assert s[k..k + 1] == [piece[k]];
    }
    if CutFirst(piece, [c]) {
      forall k | 0 <= k < |piece| ensures piece[k] != c { assert !OccursAt(s, [c], k); }
    }
  }

  lemma {:induction false} JoinSnoc(out: seq<string>, x: string, sep: string)
    requires out != []
    ensures Join(out + [x], sep) == Join(out, sep) + sep + x
  {
    if |out| == 1 {
      assert (out + [x])[1..] == [x];
    } else {
      assert (out + [x])[1..] == out[1..] + [x];
      JoinSnoc(out[1..], x, sep);
    }
  }

  /** The pieces so far, and what is still to be cut. */
  ghost predicate Cut(s: string, out: seq<string>, rest: string, sep: string) {
    Join(out + [rest], sep) == s && forall i :: 0 <= i < |out| ==> CutFirst(out[i], sep)
  }

  lemma CutNext(s: string, out: seq<string>, rest: string, sep: string, i: nat)
    requires Cut(s, out, rest, sep) && OccursAt(rest, sep, i) && forall k :: k < i ==> !OccursAt(rest, sep, k)
    ensures Cut(s, out + [rest[..i]], rest[i + |sep|..], sep)
  {
    var a, b := rest[..i], rest[i + |sep|..];
    FirstIsCut(rest, sep, i);
    JoinCut(out, a, b, sep);
    assert rest == a + sep + b;
  }

  lemma FirstIsCut(rest: string, sep: string, i: nat)
    requires OccursAt(rest, sep, i) && forall k :: k < i ==> !OccursAt(rest, sep, k)
    ensures CutFirst(rest[..i], sep)
  {
    var t := rest[..i] + sep;
    assert t == rest[..i + |sep|];
    forall k | 0 <= k < i ensures !OccursAt(t, sep, k) {
      assert !OccursAt(rest, sep, k);
      assert k + |sep| <= |t| ==> t[k..k + |sep|] == rest[k..k + |sep|];
    }
  }

  lemma JoinCut(out: seq<string>, a: string, b: string, sep: string)
    ensures Join(out + [a + sep + b], sep) == Join(out + [a] + [b], sep)
  {
    if out == [] {
      assert out + [a + sep + b] == [a + sep + b];
      assert (out + [a] + [b])[1..] == [b];
    } else {
      JoinSnoc(out, a + sep + b, sep);
      JoinSnoc(out, a, sep);
      JoinSnoc(out + [a], b, sep);
      assert Join(out, sep) + sep + (a + sep + b) == Join(out, sep) + sep + a + sep + b;
    }
  }

  method SplitN(s: string, sep: string, n: int) returns (out: seq<string>)
    ensures IsSplit(s, sep, n, out)
  {
    var rest := s;
    out := [];
    assert out + [rest] == [s];
    while |out| < n - 1
      invariant Cut(s, out, rest, sep) && (|out| < n || out == [])
    {
      var i := Index(rest, sep);
      if i < 0 { break; }
      CutNext(s, out, rest, sep, i);
      out := out + [rest[..i]];
      rest := rest[i + |sep|..];
    }
    out := out + [rest];
  }

  method ParseShippingString(s: string) returns (r: RssShipping)
    ensures r == ParseShipping(s)
  {
    var parts := SplitN(s, [':'], 3);
    forall i | 0 <= i < |parts| ensures CutFirst(parts[i], [':']) <==> Free(parts[i], ':') {
      CutFirstFree(parts[i], ':');
    }
    NotContainsFree(parts[|parts| - 1], ':');
    if |parts| == 3 {
      SplitDetermines(s, parts);
      return RssShipping(parts[0], parts[1], parts[2]);
    }
    if |parts| == 2 {
      SplitDetermines2(s, parts);
    } else {
      assert |parts| == 1 && parts[0] == s;
      UntilFree(s, ':');
    }
    return RssShipping("", "", "");
  }

  function Until(s: string, c: char): (n: nat)
    ensures n <= |s| && Free(s[..n], c) && (n < |s| ==> s[n] == c)
  {
    if s == [] || s[0] == c then 0 else
      var n := 1 + Until(s[1..], c);
      assert s[..n] == [s[0]] + s[1..][..n - 1];
      n
  }

  /** The two cuts written out. */
  function ParseShipping(s: string): RssShipping {
    var i := Until(s, ':');
    if i == |s| then RssShipping("", "", "")
    else
      var rest := s[i + 1..];
      var j := Until(rest, ':');
      if j == |rest| then RssShipping("", "", "")
      else RssShipping(s[..i], rest[..j], rest[j + 1..])
  }

  lemma FreeUpTo(s: string, n: nat, i: nat, c: char)
    requires i < n <= |s| && Free(s[..n], c)
    ensures s[i] != c
  {
    assert s[..n][i] == s[i];
  }

  lemma UntilIs(a: string, rest: string, c: char)
    requires Free(a, c)
    ensures Until(a + [c] + rest, c) == |a|
  {
    var s := a + [c] + rest;
    var n := Until(s, c);
    assert s[|a|] == c && forall i :: 0 <= i < |a| ==> s[i] == a[i];
    if n > |a| { FreeUpTo(s, n, |a|, c); }
  }

  lemma UntilFree(a: string, c: char)
    requires Free(a, c)
    ensures Until(a, c) == |a|
  {
  }

  lemma SplitDetermines(s: string, parts: seq<string>)
    requires |parts| == 3 && Join(parts, [':']) == s && Free(parts[0], ':') && Free(parts[1], ':')
    ensures ParseShipping(s) == RssShipping(parts[0], parts[1], parts[2])
  {
    var rest := Join(parts[1..], [':']);
    assert [':'] == ":";
    assert parts[1..][1..] == [parts[2]] && Join([parts[2]], [':']) == parts[2];
    assert rest == parts[1] + [':'] + parts[2];
    assert rest == parts[1] + ":" + parts[2] && s == parts[0] + ":" + rest;
    UntilIs(parts[0], rest, ':');
    UntilIs(parts[1], parts[2], ':');
    assert s[|parts[0]| + 1..] == rest && rest[|parts[1]| + 1..] == parts[2];
    assert s[..|parts[0]|] == parts[0] && rest[..|parts[1]|] == parts[1];
  }

  lemma SplitDetermines2(s: string, parts: seq<string>)
    requires |parts| == 2 && Join(parts, [':']) == s && Free(parts[0], ':') && Free(parts[1], ':')
    ensures ParseShipping(s) == RssShipping("", "", "")
  {
    assert [':'] == ":";
    assert parts[1..] == [parts[1]] && Join([parts[1]], [':']) == parts[1];
    assert s == parts[0] + ":" + parts[1];
    UntilIs(parts[0], parts[1], ':');
    assert s[|parts[0]| + 1..] == parts[1];
    UntilFree(parts[1], ':');
  }

  lemma ParsePieces(country: string, service: string, price: string)
    requires Free(country, ':') && Free(service, ':')
    ensures ParseShipping(country + [':'] + (service + [':'] + price)) == RssShipping(country, service, price)
  {
    var rest := service + [':'] + price;
    var text := country + [':'] + rest;
    UntilIs(country, rest, ':');
    assert text[..|country|] == country && text[|country| + 1..] == rest;
    UntilIs(service, price, ':');
    assert rest[..|service|] == service && rest[|service| + 1..] == price;
  }

  lemma PartsAreFree(text: string)
    ensures Free(ParseShipping(text).country, ':') && Free(ParseShipping(text).service, ':')
  {
  }

  /** Reading a printed shipping annotation back gives its parts exactly when neither the
      country nor the service contains a colon. */
  lemma ShippingRoundTrip(s: Shipping)
    ensures ParseShipping(FormatShipping(s)) == RssShipping(s.country, s.service, Format(s.price))
      <==> Free(s.country, ':') && Free(s.service, ':')
  {
    PartsAreFree(FormatShipping(s));
    if Free(s.country, ':') && Free(s.service, ':') {
      ShippingText(s.country, s.service, Format(s.price));
      ParsePieces(s.country, s.service, Format(s.price));
    }
  }

  lemma ShippingText(a: string, b: string, c: string)
    ensures a + ":" + b + ":" + c == a + [':'] + (b + [':'] + c)
  {
  }
}
