/** Reading an `"n/d"` time signature, as `NoteQuantizer.__init__` and
    `NotationGenerator._parse_time_signature` both do: split on `/`, convert both
    parts with `int`, and return `n * (4 / d)` quarter beats per measure. */
module TimeSignature {
  import opened Outcomes
  import opened Decimal

  /** `text.split(sep)`: the pieces between separators, empty pieces kept. */
  function Split(text: string, sep: char): (parts: seq<string>)
    ensures |parts| >= 1
    ensures forall k :: 0 <= k < |parts| ==> sep !in parts[k]
  {
    if |text| == 0 then [""]
    else
      var rest := Split(text[1..], sep);
      if text[0] == sep then [""] + rest
      else [[text[0]] + rest[0]] + rest[1..]
  }

  /** `sep.join(parts)`. */
  function Join(parts: seq<string>, sep: char): string
    requires |parts| >= 1
  {
    if |parts| == 1 then parts[0] else parts[0] + [sep] + Join(parts[1..], sep)
  }

  /** Joining the pieces gives back the text. */
  lemma {:induction false} SplitJoin(text: string, sep: char)
    ensures Join(Split(text, sep), sep) == text
    decreases |text|
  {
    if |text| > 0 {
      SplitJoin(text[1..], sep);
      var rest := Split(text[1..], sep);
      if text[0] != sep {
        var parts := Split(text, sep);
        if |rest| == 1 {
          assert parts == [[text[0]] + rest[0]];
        } else {
          assert parts[1..] == rest[1..];
          assert Join(rest, sep) == rest[0] + [sep] + Join(rest[1..], sep);
        }
      }
    }
  }

  /** Splitting text that holds the separator once gives the two sides. */
  lemma {:induction false} SplitTwo(a: string, b: string, sep: char)
    requires sep !in a && sep !in b
    ensures Split(a + [sep] + b, sep) == [a, b]
    decreases |a|
  {
    if |a| == 0 {
      assert a + [sep] + b == [sep] + b;
      assert ([sep] + b)[1..] == b;
      SplitNone(b, sep);
    } else {
      assert (a + [sep] + b)[1..] == a[1..] + [sep] + b;
      SplitTwo(a[1..], b, sep);
      assert [a[0]] + a[1..] == a;
    }
  }

  /** Text without the separator is a single piece. */
  lemma {:induction false} SplitNone(text: string, sep: char)
    requires sep !in text
    ensures Split(text, sep) == [text]
    decreases |text|
  {
    if |text| > 0 {
      SplitNone(text[1..], sep);
      assert [text[0]] + text[1..] == text;
    }
  }

  /** `numerator, denominator = map(int, text.split('/'))` followed by
      `numerator * (4 / denominator)`: anything but two integer pieces is a
      ValueError, a zero denominator a ZeroDivisionError. */
  function ParseTimeSignature(text: string): (r: Result<real>)
  {
    var parts := Split(text, '/');
    if |parts| != 2 then Failure(MalformedTimeSignature(text))
    else
      var numerator, denominator := ParseInt(parts[0]), ParseInt(parts[1]);
      if numerator.None? || denominator.None? then Failure(MalformedTimeSignature(text))
      else if denominator.value == 0 then Failure(ZeroDenominator)
      else Success(MeasureBeats(numerator.value, denominator.value))
  }

  /** Writing `n/d` and reading it back gives `4n/d` quarter beats per measure,
      or the division error when `d` is zero. */
  lemma ParseTimeSignatureRoundTrip(n: int, d: int)
    ensures d != 0 ==> ParseTimeSignature(IntToString(n) + "/" + IntToString(d)) == Success(4.0 * n as real / d as real)
    ensures d == 0 ==> ParseTimeSignature(IntToString(n) + "/" + IntToString(d)) == Failure(ZeroDenominator)
  {
    var a, b := IntToString(n), IntToString(d);
    assert '/' !in a && '/' !in b;
    var text := a + "/" + b;
    assert text == a + ['/'] + b;
    SplitTwo(a, b, '/');
    IntToStringRoundTrip(n);
    IntToStringRoundTrip(d);
    ParseParts(text, n, d);
    if d != 0 {
      QuarterBeats(n, d);
    }
  }

  /** Two integer pieces give the beats per measure, or the division error. */
  lemma ParseParts(text: string, n: int, d: int)
    requires |Split(text, '/')| == 2
    requires ParseInt(Split(text, '/')[0]) == Some(n) && ParseInt(Split(text, '/')[1]) == Some(d)
    ensures d != 0 ==> ParseTimeSignature(text) == Success(MeasureBeats(n, d))
    ensures d == 0 ==> ParseTimeSignature(text) == Failure(ZeroDenominator)
  {
  }

  lemma QuarterBeats(n: int, d: int)
    requires d != 0
    ensures MeasureBeats(n, d) == 4.0 * n as real / d as real
  {
  }

  /** Splitting yields one more piece than there are separators. */
  lemma {:induction false} SplitCount(text: string, sep: char)
    ensures |Split(text, sep)| == multiset(text)[sep] + 1
    decreases |text|
  {
    if |text| > 0 {
      assert text == [text[0]] + text[1..];
      assert multiset(text) == multiset{text[0]} + multiset(text[1..]);
      SplitCount(text[1..], sep);
    }
  }

  /** Text with no `/`, or with more than one, is rejected as malformed. */
  lemma ParseTimeSignatureNeedsOneSlash(text: string)
    requires multiset(text)['/'] != 1
    ensures ParseTimeSignature(text) == Failure(MalformedTimeSignature(text))
  {
    SplitCount(text, '/');
  }

  /** `numerator * (4 / denominator)`: quarter beats in a measure of `n`
      notes of value `1/d`. */
  function MeasureBeats(n: int, d: int): (b: real)
    requires d != 0
  {
    n as real * (4.0 / d as real)
  }

  /** A signature written with two single digits. */
  lemma OneDigitSignature(n: nat, d: nat)
    requires n < 10 && 0 < d < 10
    ensures ParseTimeSignature([DigitChar(n), '/', DigitChar(d)]) == Success(4.0 * n as real / d as real)
  {
    ParseTimeSignatureRoundTrip(n, d);
    assert IntToString(n) + "/" + IntToString(d) == [DigitChar(n), '/', DigitChar(d)];
  }

  /** The common signatures, spelled out. */
  lemma CommonSignatures()
    ensures ParseTimeSignature("4/4") == Success(4.0)
    ensures ParseTimeSignature("3/4") == Success(3.0)
    ensures ParseTimeSignature("6/8") == Success(3.0)
  {
    OneDigitSignature(4, 4);
    OneDigitSignature(3, 4);
    OneDigitSignature(6, 8);
    assert [DigitChar(4), '/', DigitChar(4)] == "4/4";
    assert [DigitChar(3), '/', DigitChar(4)] == "3/4";
    assert [DigitChar(6), '/', DigitChar(8)] == "6/8";
  }
}
