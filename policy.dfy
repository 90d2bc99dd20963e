/**
 * The two policy functions of the long-text pipeline: the processing-time
 * estimate and the input validation with its error messages.
 */
module Policy {
  import opened Text
  import opened Settings

  // ---------------------------------------------------------------- integer helpers

  /** Python's int() on the exact quotient n / d: truncation toward zero. */
  function TruncDiv(n: int, d: int): int
    requires d >= 1
  {
    if n >= 0 then n / d else -((-n) / d)
  }

  /** The truncated quotient is the whole number of times d fits into |n|,
      with the sign of n. */
  lemma TruncDivBounds(n: int, d: int)
    requires d >= 1
    ensures var q := TruncDiv(n, d);
      && (n >= 0 ==> q * d <= n < (q + 1) * d)
      && (n < 0 ==> (q - 1) * d < n <= q * d)
  {
  }

  lemma TruncDivMonotone(a: int, b: int, d: int)
    requires d >= 1 && a <= b
    ensures TruncDiv(a, d) <= TruncDiv(b, d)
  {
    if a >= 0 {
      DivMonotone(a, b, d);
    } else if b < 0 {
      DivMonotone(-b, -a, d);
    } else {
      DivMonotone(0, -a, d);
      DivMonotone(0, b, d);
    }
  }

  lemma MulLe(d: int, x: int, y: int)
    requires d >= 1 && x <= y
    ensures d * x <= d * y
  {
  }

  lemma MulSmall(d: int, m: int)
    requires d >= 1 && -d < d * m < d
    ensures m == 0
  {
    if m >= 1 {
      MulLe(d, 1, m);
      assert false;
    } else if m <= -1 {
      MulLe(d, m, -1);
      assert false;
    }
  }

  /** Quotient and remainder are unique. */
  lemma DivUnique(x: int, d: int, q: int, r: int)
    requires d >= 1 && 0 <= r < d && x == d * q + r
    ensures x / d == q
  {
    var q', r' := x / d, x % d;
    assert d * (q - q') == r' - r;
    MulSmall(d, q - q');
  }

  lemma DivMonotone(a: int, b: int, d: int)
    requires d >= 1 && a <= b
    ensures a / d <= b / d
  {
    if a / d > b / d {
      MulLe(d, b / d + 1, a / d);
      assert false;
    }
  }

  lemma DivPlusMultiple(a: int, k: int, d: int)
    requires d >= 1 && a >= 0 && k >= 0
    ensures (a + k * d) / d == a / d + k
  {
    assert a + k * d == d * (a / d + k) + a % d;
    DivUnique(a + k * d, d, a / d + k, a % d);
  }

  // ---------------------------------------------------------------- estimate_processing_time

  /** `chunk_size or LONG_TEXT_CHUNK_SIZE`, and the configured size again
      when that is not positive. */
  function EstimateChunkSize(chunkSize: Option<int>, cfg: Config): (ecs: int)
    requires cfg.Valid()
    ensures ecs >= 1
    ensures chunkSize.Some? && chunkSize.value >= 1 ==> ecs == chunkSize.value
    ensures chunkSize.None? || chunkSize.value <= 0 ==> ecs == cfg.longTextChunkSize
  {
    var ecs := if chunkSize.None? || chunkSize.value == 0 then cfg.longTextChunkSize else chunkSize.value;
    if ecs <= 0 then cfg.longTextChunkSize else ecs
  }

  /** `max(1, (text_length + ecs - 1) // ecs)`: the number of chunks, at least one. */
  function NumChunks(textLength: int, ecs: int): (n: int)
    requires ecs >= 1
    ensures n >= 1
  {
    var c := (textLength + ecs - 1) / ecs;
    if c > 1 then c else 1
  }

  /** For a positive length, NumChunks is the ceiling of textLength / ecs:
      the least n with n chunks of ecs covering the text. */
  lemma NumChunksIsCeiling(textLength: int, ecs: int)
    requires ecs >= 1 && textLength >= 1
    ensures var n := NumChunks(textLength, ecs);
      (n - 1) * ecs < textLength <= n * ecs
  {
    var c := (textLength + ecs - 1) / ecs;
    assert c * ecs <= textLength + ecs - 1 < (c + 1) * ecs;
  }

  /** `estimate_processing_time`, with the average rate a positive whole number
      of characters per second: int(text_length / rate + 5 + 2 * chunks + 10).
      For a non-negative length the estimate splits into the reading time,
      floor(text_length / rate), and the overhead 15 + 2 * chunks. */
  function EstimateProcessingTime(textLength: int, avgCharsPerSecond: int, chunkSize: Option<int>, cfg: Config): (t: int)
    requires cfg.Valid() && avgCharsPerSecond >= 1
    ensures textLength >= 0 ==>
      t == textLength / avgCharsPerSecond + 15 + 2 * NumChunks(textLength, EstimateChunkSize(chunkSize, cfg))
  {
    var numChunks := NumChunks(textLength, EstimateChunkSize(chunkSize, cfg));
    var overhead := 5 + numChunks * 2 + 10;
    if textLength >= 0 then
      DivPlusMultiple(textLength, overhead, avgCharsPerSecond);
      TruncDiv(textLength + overhead * avgCharsPerSecond, avgCharsPerSecond)
    else
      TruncDiv(textLength + overhead * avgCharsPerSecond, avgCharsPerSecond)
  }

  /** A text of any non-negative length costs at least the 17 seconds of
      fixed overhead and one chunk. */
  lemma EstimateAtLeastOverhead(textLength: int, avgCharsPerSecond: int, chunkSize: Option<int>, cfg: Config)
    requires cfg.Valid() && avgCharsPerSecond >= 1 && textLength >= 0
    ensures EstimateProcessingTime(textLength, avgCharsPerSecond, chunkSize, cfg) >= 17
  {
    var a := avgCharsPerSecond;
    var overhead := 5 + NumChunks(textLength, EstimateChunkSize(chunkSize, cfg)) * 2 + 10;
    var n := textLength + overhead * a;
    MulLe(a, 17, overhead);
    var q := TruncDiv(n, a);
    TruncDivBounds(n, a);
    if q < 17 {
      MulLe(a, q + 1, 17);
      assert false;
    }
  }

  /** A longer text never gets a smaller estimate. */
  lemma EstimateMonotone(len1: int, len2: int, avgCharsPerSecond: int, chunkSize: Option<int>, cfg: Config)
    requires cfg.Valid() && avgCharsPerSecond >= 1 && len1 <= len2
    ensures EstimateProcessingTime(len1, avgCharsPerSecond, chunkSize, cfg)
         <= EstimateProcessingTime(len2, avgCharsPerSecond, chunkSize, cfg)
  {
    var ecs := EstimateChunkSize(chunkSize, cfg);
    DivMonotone(len1 + ecs - 1, len2 + ecs - 1, ecs);
    var o1 := 5 + NumChunks(len1, ecs) * 2 + 10;
    var o2 := 5 + NumChunks(len2, ecs) * 2 + 10;
    assert o1 * avgCharsPerSecond <= o2 * avgCharsPerSecond;
    TruncDivMonotone(len1 + o1 * avgCharsPerSecond, len2 + o2 * avgCharsPerSecond, avgCharsPerSecond);
  }

  /** The documented example: 1000 characters at 25 per second in chunks
      of 200 take 40 + 15 + 2 * 5 = 65 seconds. */
  lemma EstimateExample(cfg: Config)
    requires cfg.Valid()
    ensures EstimateProcessingTime(1000, 25, Some(200), cfg) == 65
  {
  }

  // ---------------------------------------------------------------- decimal formatting

  function DigitChar(d: nat): char
    requires d < 10
  {
    "0123456789"[d]
  }

  /** str(n) for a natural number. */
  function NatToDecimal(n: nat): (s: string)
    ensures s != []
    ensures forall i :: 0 <= i < |s| ==> '0' <= s[i] <= '9'
    ensures s[0] == '0' ==> n == 0
  {
    if n < 10 then [DigitChar(n)] else NatToDecimal(n / 10) + [DigitChar(n % 10)]
  }

  /** The number a string of decimal digits denotes. */
  function DecimalValue(s: string): nat
    requires forall i :: 0 <= i < |s| ==> '0' <= s[i] <= '9'
  {
    if s == [] then 0 else 10 * DecimalValue(s[..|s| - 1]) + (s[|s| - 1] as int - '0' as int)
  }

  /** Reading back the digits gives the number. */
  lemma {:induction false} DecimalRoundTrip(n: nat)
    ensures DecimalValue(NatToDecimal(n)) == n
  {
    if n >= 10 {
      DecimalRoundTrip(n / 10);
      var s := NatToDecimal(n);
      assert s[..|s| - 1] == NatToDecimal(n / 10);
    }
  }

  /** str(n) for any integer. */
  function IntToDecimal(n: int): (s: string)
    ensures s != []
    ensures n >= 0 ==> s == NatToDecimal(n)
    ensures n < 0 ==> s == "-" + NatToDecimal(-n)
  {
    if n >= 0 then NatToDecimal(n) else "-" + NatToDecimal(-n)
  }

  /** The integer a string written by IntToDecimal denotes: an optional minus
      sign, then decimal digits. */
  function SignedDecimalValue(s: string): int
    requires s != []
    requires forall i :: (if s[0] == '-' then 1 else 0) <= i < |s| ==> '0' <= s[i] <= '9'
  {
    if s[0] == '-' then 0 - DecimalValue(s[1..]) as int else DecimalValue(s)
  }

  /** Reading back str(n) gives n, for negative numbers too. */
  lemma IntDecimalRoundTrip(n: int)
    ensures var s := IntToDecimal(n);
      (forall i :: (if s[0] == '-' then 1 else 0) <= i < |s| ==> '0' <= s[i] <= '9')
      && SignedDecimalValue(s) == n
  {
    var s := IntToDecimal(n);
    if n >= 0 {
      DecimalRoundTrip(n);
    } else {
      DecimalRoundTrip(-n);
      assert s[1..] == NatToDecimal(-n);
    }
  }

  // ---------------------------------------------------------------- validate_long_text_input

  datatype ValidationResult = ValidationResult(isValid: bool, message: string)

  const EmptyMessage: string := "Input text cannot be empty"
  const RepetitiveMessage: string := "Text appears to be excessively repetitive"

  function TooShortMessage(minLength: int, textLength: nat): string {
    "Text must be at least " + IntToDecimal(minLength) + " characters for long-text processing (received "
      + NatToDecimal(textLength) + " characters)"
  }

  function TooLongMessage(textLength: nat, maxLength: int): string {
    "Text is too long (" + NatToDecimal(textLength) + " characters). Maximum allowed: " + IntToDecimal(maxLength)
  }

  /** The repetition test `len(set(words)) < len(words) * 0.1`, read exactly. */
  predicate Repetitive(words: seq<string>) {
    10 * |set w | w in words| < |words|
  }

  /** `validate_long_text_input`: the checks in order (blank, too short,
      too long, repetitive), the first failure's message, else (True, ""). */
  function ValidateLongTextInput(text: string, cfg: Config): (r: ValidationResult)
    ensures r.isValid <==>
      && !IsBlank(text)
      && cfg.longTextMinLength <= |Strip(text)| <= cfg.longTextMaxLength
      && !Repetitive(Words(text))
    ensures r.isValid <==> r.message == []
    ensures IsBlank(text) ==> r.message == EmptyMessage
    ensures !IsBlank(text) && |Strip(text)| < cfg.longTextMinLength ==>
      r.message == TooShortMessage(cfg.longTextMinLength, |Strip(text)|)
    ensures !IsBlank(text) && cfg.longTextMinLength <= |Strip(text)| && |Strip(text)| > cfg.longTextMaxLength ==>
      r.message == TooLongMessage(|Strip(text)|, cfg.longTextMaxLength)
    ensures !IsBlank(text) && cfg.longTextMinLength <= |Strip(text)| <= cfg.longTextMaxLength && Repetitive(Words(text)) ==>
      r.message == RepetitiveMessage
  {
    StripFacts(text);
    if text == [] || Strip(text) == [] then ValidationResult(false, EmptyMessage)
    else
      var textLength := |Strip(text)|;
      if textLength < cfg.longTextMinLength then
        ValidationResult(false, TooShortMessage(cfg.longTextMinLength, textLength))
      else if textLength > cfg.longTextMaxLength then
        ValidationResult(false, TooLongMessage(textLength, cfg.longTextMaxLength))
      else if Repetitive(Words(text)) then
        ValidationResult(false, RepetitiveMessage)
      else ValidationResult(true, "")
  }
}
