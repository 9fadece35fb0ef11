/**
 The URLs the pagination driver requests (app/parse.py:6, 40, 45): the base URL
 for the first page, and `BASE_URL + "page/" + str(n) + "/"` for page n >= 2.
 */
module Urls {
  import opened Wrappers

  const BaseUrl: string := "https://quotes.toscrape.com/"
  const PagePrefix: string := BaseUrl + "page/"

  predicate IsDigit(c: char) {
    '0' <= c <= '9'
  }

  function DigitChar(d: nat): (c: char)
    requires d < 10
    ensures IsDigit(c)
  {
    ('0' as int + d) as char
  }

  function DigitValue(c: char): (d: nat)
    requires IsDigit(c)
    ensures d < 10 && DigitChar(d) == c
  {
    c as int - '0' as int
  }

  /** Python's `str(n)` for a natural number: its decimal digits, without leading zeros. */
  function Decimal(n: nat): (s: string)
    ensures 1 <= |s|
    ensures forall i :: 0 <= i < |s| ==> IsDigit(s[i])
    ensures s[0] == '0' ==> n == 0
    decreases n
  {
    if n < 10 then [DigitChar(n)] else Decimal(n / 10) + [DigitChar(n % 10)]
  }

  /** Reads a non-empty string of decimal digits back as a number; None for anything else. */
  function ParseDecimal(s: string): (r: Option<nat>)
    ensures r.Some? ==> 1 <= |s| && forall i :: 0 <= i < |s| ==> IsDigit(s[i])
    decreases |s|
  {
    if |s| == 0 || !IsDigit(s[|s| - 1]) then None
    else if |s| == 1 then Some(DigitValue(s[0]))
    else match ParseDecimal(s[..|s| - 1])
      case None => None
      case Some(v) => Some(10 * v + DigitValue(s[|s| - 1]))
  }

  lemma {:induction false} DecimalRoundTrip(n: nat)
    ensures ParseDecimal(Decimal(n)) == Some(n)
    decreases n
  {
    if n >= 10 {
      var s := Decimal(n);
      assert s == Decimal(n / 10) + [DigitChar(n % 10)];
      assert s[..|s| - 1] == Decimal(n / 10);
      assert DigitValue(s[|s| - 1]) == n % 10;
      DecimalRoundTrip(n / 10);
    }
  }

  /** The URL of the k-th page the driver requests, built from the counter alone. */
  function PageUrl(k: nat): (url: string)
    requires 1 <= k
    ensures (url == BaseUrl) <==> k == 1
  {
    if k == 1 then BaseUrl else PagePrefix + Decimal(k) + "/"
  }

  /** The page number a URL of the site's scheme stands for; None for any other URL. */
  function PageNumber(url: string): Option<nat> {
    if url == BaseUrl then Some(1)
    else if |PagePrefix| < |url| && url[..|PagePrefix|] == PagePrefix && url[|url| - 1] == '/' then
      ParseDecimal(url[|PagePrefix|..|url| - 1])
    else None
  }

  /** Every requested URL names the page number it was built from. */
  lemma PageUrlRoundTrip(k: nat)
    requires 1 <= k
    ensures PageNumber(PageUrl(k)) == Some(k)
  {
    if k >= 2 {
      var d := Decimal(k);
      var url := PagePrefix + d + "/";
      assert |url| == |PagePrefix| + |d| + 1;
      assert url != BaseUrl by { assert |url| > |BaseUrl|; }
      assert url[..|PagePrefix|] == PagePrefix;
      assert url[|url| - 1] == '/';
      assert url[|PagePrefix|..|url| - 1] == d;
      DecimalRoundTrip(k);
    }
  }

  /** Distinct page numbers give distinct URLs: no page is requested twice. */
  lemma PageUrlInjective(j: nat, k: nat)
    requires 1 <= j && 1 <= k && j != k
    ensures PageUrl(j) != PageUrl(k)
  {
    PageUrlRoundTrip(j);
    PageUrlRoundTrip(k);
  }
}
