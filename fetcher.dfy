/**
 * Retrieving the raw snapshot of one hour offset. The transport itself is a
 * parameter: `download(url)` is the decoded body, or `None` when the request,
 * the status check or the decoding failed.
 */
module SnapshotFetcher {
  import opened Wrappers
  import opened JsonValue

  /** The text of `BASE_URL` before its `{:02d}` field. */
  const UrlPrefix: string := "https://a.windbornesystems.com/treasure/"

  /** The text of `BASE_URL` after its `{:02d}` field. */
  const UrlSuffix: string := ".json"

  predicate IsDigit(c: char)
  {
    '0' <= c <= '9'
  }

  predicate AllDigits(s: string)
  {
    forall k :: 0 <= k < |s| ==> IsDigit(s[k])
  }

  function DigitChar(d: nat): (c: char)
    requires d < 10
    ensures IsDigit(c)
  {
    "0123456789"[d]
  }

  /** The value of a digit character. */
  function DigitValue(c: char): (d: nat)
    requires IsDigit(c)
    ensures d < 10
  {
    c as int - '0' as int
  }

  /** The shortest decimal numeral of `n`: the `d` conversion without padding. */
  function Decimal(n: nat): (s: string)
    decreases n
    ensures |s| >= 1 && AllDigits(s)
    ensures n > 0 ==> s[0] != '0'
    ensures n < 10 <==> |s| == 1
  {
    if n < 10 then [DigitChar(n)] else Decimal(n / 10) + [DigitChar(n % 10)]
  }

  /** The number a string of decimal digits denotes. */
  function DecimalValue(s: string): nat
    requires AllDigits(s)
    decreases |s|
  {
    if s == [] then 0 else DecimalValue(s[..|s| - 1]) * 10 + DigitValue(s[|s| - 1])
  }

  /** The numeral denotes the number it was made from. */
  lemma {:induction false} DecimalRoundTrip(n: nat)
    ensures DecimalValue(Decimal(n)) == n
    decreases n
  {
    var s := Decimal(n);
    if n < 10 {
      assert s[..0] == [];
      assert "0123456789"[n] as int - '0' as int == n;
    } else {
      DecimalRoundTrip(n / 10);
      assert s[..|s| - 1] == Decimal(n / 10);
      assert "0123456789"[n % 10] as int - '0' as int == n % 10;
    }
  }

  /** Leading zeros do not change the number a numeral denotes. */
  lemma {:induction false} LeadingZerosValue(z: nat, s: string)
    requires AllDigits(s)
    ensures AllDigits(seq(z, _ => '0') + s)
    ensures DecimalValue(seq(z, _ => '0') + s) == DecimalValue(s)
    decreases |s|
  {
    var zs: string := seq(z, _ => '0');
    var t := zs + s;
    assert forall k :: 0 <= k < |t| ==> t[k] == if k < z then '0' else s[k - z];
    if s == [] {
      assert t == zs;
      LeadingZerosOnly(z);
    } else {
      var init := s[..|s| - 1];
      assert t[..|t| - 1] == zs + init;
      LeadingZerosValue(z, init);
    }
  }

  lemma {:induction false} LeadingZerosOnly(z: nat)
    ensures AllDigits(seq(z, _ => '0'))
    ensures DecimalValue(seq(z, _ => '0')) == 0
    decreases z
  {
    var zs: string := seq(z, _ => '0');
    if z > 0 {
      assert zs[..z - 1] == seq(z - 1, _ => '0');
      LeadingZerosOnly(z - 1);
    }
  }

  /** Format-spec `0<width>`: left-pad with '0' to at least `width` characters. */
  function ZeroPad(s: string, width: nat): string
  {
    if |s| >= width then s else seq(width - |s|, _ => '0') + s
  }

  /** The `{:02d}` field for an hour offset. */
  function OffsetField(h: nat): string
  {
    ZeroPad(Decimal(h), 2)
  }

  /** `BASE_URL.format(hour_offset)` */
  function SnapshotUrl(h: nat): string
  {
    UrlPrefix + OffsetField(h) + UrlSuffix
  }

  /**
   * The offset field is at least two decimal digits, exactly two below 100,
   * the plain numeral from 10 on, and denotes the offset it was made from.
   */
  lemma OffsetFieldFormat(h: nat)
    ensures |OffsetField(h)| >= 2 && AllDigits(OffsetField(h))
    ensures h < 100 ==> |OffsetField(h)| == 2
    ensures h >= 10 ==> OffsetField(h) == Decimal(h)
    ensures h < 10 ==> OffsetField(h) == ['0'] + Decimal(h)
    ensures DecimalValue(OffsetField(h)) == h
  {
    DecimalRoundTrip(h);
    if h < 10 {
      LeadingZerosValue(1, Decimal(h));
      assert seq(1, _ => '0') == ['0'];
    } else if h < 100 {
      assert Decimal(h) == Decimal(h / 10) + [DigitChar(h % 10)];
    }
  }

  /** The URL is the template's prefix, the offset field and `.json`, and the field can be read back. */
  lemma SnapshotUrlParts(h: nat)
    ensures var url := SnapshotUrl(h);
      && |url| >= |UrlPrefix| + 2 + |UrlSuffix|
      && url[..|UrlPrefix|] == UrlPrefix
      && url[|url| - |UrlSuffix|..] == UrlSuffix
      && url[|UrlPrefix|..|url| - |UrlSuffix|] == OffsetField(h)
      && AllDigits(url[|UrlPrefix|..|url| - |UrlSuffix|])
      && DecimalValue(url[|UrlPrefix|..|url| - |UrlSuffix|]) == h
  {
    OffsetFieldFormat(h);
    var url := SnapshotUrl(h);
    var f := OffsetField(h);
    assert url == UrlPrefix + f + UrlSuffix;
    assert url[..|UrlPrefix|] == UrlPrefix;
    assert url[|url| - |UrlSuffix|..] == UrlSuffix;
    assert url[|UrlPrefix|..|url| - |UrlSuffix|] == f;
  }

  /** Distinct offsets are fetched from distinct URLs. */
  lemma SnapshotUrlInjective(h1: nat, h2: nat)
    requires SnapshotUrl(h1) == SnapshotUrl(h2)
    ensures h1 == h2
  {
    SnapshotUrlParts(h1);
    SnapshotUrlParts(h2);
  }

  lemma SnapshotUrlExamples()
    ensures SnapshotUrl(0) == "https://a.windbornesystems.com/treasure/00.json"
    ensures SnapshotUrl(5) == "https://a.windbornesystems.com/treasure/05.json"
    ensures SnapshotUrl(12) == "https://a.windbornesystems.com/treasure/12.json"
    ensures SnapshotUrl(23) == "https://a.windbornesystems.com/treasure/23.json"
  {
    assert Decimal(0) == "0";
    assert Decimal(5) == "5";
    assert Decimal(1) == "1" && Decimal(12) == "12";
    assert Decimal(2) == "2" && Decimal(23) == "23";
    assert seq(1, _ => '0') == "0";
  }

  /**
   * `fetch_snapshot(h)`: one download of offset `h`'s URL; a failed download
   * becomes `None`, which the parser treats like a JSON `null` body.
   */
  function FetchSnapshot(download: string -> Option<Json>, h: nat): (raw: Json)
    ensures download(SnapshotUrl(h)).None? ==> raw.JNull?
    ensures download(SnapshotUrl(h)).Some? ==> raw == download(SnapshotUrl(h)).value
  {
    match download(SnapshotUrl(h))
    case None => JNull
    case Some(body) => body
  }
}
