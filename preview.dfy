/**
 * The banner column of `print_result` (src/main.rs): the first 60
 * characters of the banner, followed by "..." when the banner is longer
 * than 60, where "longer" is measured by `str::len`, the length in UTF-8
 * bytes, while the cut counts characters.
 */
module Preview {
  import opened Wrappers

  const PREVIEW_CHARS := 60

  /** Bytes in the UTF-8 encoding of one character. */
  function Utf8Width(c: char): (w: nat)
    ensures 1 <= w <= 4
    ensures (c as int) < 0x80 <==> w == 1
  {
    var n := c as int;
    if n < 0x80 then 1 else if n < 0x800 then 2 else if n < 0x10000 then 3 else 4
  }

  /** `str::len`: the length of the UTF-8 encoding. */
  function ByteLength(s: string): (n: nat)
    ensures |s| <= n <= 4 * |s|
  {
    if s == [] then 0 else Utf8Width(s[0]) + ByteLength(s[1..])
  }

  predicate IsAscii(s: string) {
    forall i :: 0 <= i < |s| ==> (s[i] as int) < 0x80
  }

  lemma {:induction false} AsciiByteLength(s: string)
    requires IsAscii(s)
    ensures ByteLength(s) == |s|
  {
    if s != [] {
      AsciiByteLength(s[1..]);
    }
  }

  /** `b.chars().take(60).collect()`. */
  function TakeChars(b: string): (r: string)
    ensures |b| <= PREVIEW_CHARS ==> r == b
    ensures |b| > PREVIEW_CHARS ==> r == b[..PREVIEW_CHARS]
  {
    if |b| <= PREVIEW_CHARS then b else b[..PREVIEW_CHARS]
  }

  /** The preview as `print_result` writes it: the test looks at bytes, the cut at characters. */
  function PreviewAsWritten(b: string): (p: string)
    ensures |b| > PREVIEW_CHARS ==> p == b[..PREVIEW_CHARS] + "..."
    ensures ByteLength(b) <= PREVIEW_CHARS ==> p == b
    ensures |b| <= PREVIEW_CHARS < ByteLength(b) ==> p == b + "..."
  {
    if ByteLength(b) > PREVIEW_CHARS then TakeChars(b) + "..." else TakeChars(b)
  }

  /** The preview with the test on characters, so the marker appears exactly when characters were dropped. */
  function PreviewCorrected(b: string): (p: string)
    ensures |b| <= PREVIEW_CHARS ==> p == b
    ensures |b| > PREVIEW_CHARS ==> p == b[..PREVIEW_CHARS] + "..." && |p| == PREVIEW_CHARS + 3
  {
    if |b| > PREVIEW_CHARS then TakeChars(b) + "..." else TakeChars(b)
  }

  /** The banner cell as `print_result` writes it: "-" when there is no banner, else the written preview. */
  function BannerCell(banner: Option<string>): (cell: string)
    ensures banner.None? ==> cell == "-"
    ensures banner.Some? && |banner.value| > PREVIEW_CHARS ==>
      cell == banner.value[..PREVIEW_CHARS] + "..."
    ensures banner.Some? && ByteLength(banner.value) <= PREVIEW_CHARS ==> cell == banner.value
    ensures banner.Some? && |banner.value| <= PREVIEW_CHARS < ByteLength(banner.value) ==>
      cell == banner.value + "..."
  {
    match banner
    case None => "-"
    case Some(b) => PreviewAsWritten(b)
  }

  /** A cut banner always gets the marker, even as written. */
  lemma TruncationIsMarked(b: string)
    requires |b| > PREVIEW_CHARS
    ensures PreviewAsWritten(b) == b[..PREVIEW_CHARS] + "..."
  {
  }

  /** The two previews differ exactly when the banner fits in 60 characters but not in 60 bytes. */
  lemma PreviewsDifferIff(b: string)
    ensures PreviewAsWritten(b) != PreviewCorrected(b) <==> |b| <= PREVIEW_CHARS < ByteLength(b)
  {
    if |b| <= PREVIEW_CHARS < ByteLength(b) {
      assert |PreviewAsWritten(b)| == |b| + 3;
    }
  }

  /** On ASCII banners, where bytes and characters coincide, the code behaves as intended. */
  lemma AsciiPreviewsAgree(b: string)
    requires IsAscii(b)
    ensures PreviewAsWritten(b) == PreviewCorrected(b)
  {
    AsciiByteLength(b);
  }

  lemma {:induction false} TwoByteLength(s: string)
    requires forall i :: 0 <= i < |s| ==> s[i] == '\U{E9}'
    ensures ByteLength(s) == 2 * |s|
  {
    if s != [] {
      TwoByteLength(s[1..]);
    }
  }

  /**
   * A banner of 31 'é' (62 bytes, 31 characters) is shown whole, yet
   * followed by "...", as if it had been cut.
   */
  lemma MarkerWithoutTruncation()
    ensures var b := seq(31, _ => '\U{E9}');
      ByteLength(b) == 62 && PreviewAsWritten(b) == b + "..." && PreviewCorrected(b) == b
  {
    var b := seq(31, _ => '\U{E9}');
    TwoByteLength(b);
  }
}
