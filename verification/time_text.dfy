/**
  The countdown's `HH:MM:SS` text: the display formatter (`formatTime`) and the
  parse an edit commit performs (`value.split(":").map(Number)` and the sum).
 */
module TimeText {
  import opened Wrappers
  import opened Decimal

  /** `String(n).padStart(2, "0")`: the digits of n, widened to two, never cut. */
  function Field(n: nat): (f: string)
    ensures AllDigits(f) && Value(f) == n
    ensures |f| == if |Digits(n)| < 2 then 2 else |Digits(n)|
    ensures n < 100 ==> |f| == 2
  {
    var d := Digits(n);
    ValueOfDigits(n);
    assert n >= 10 ==> Digits(n) == Digits(n / 10) + [DigitChar(n % 10)];
    if |d| >= 2 then d
    else
      LeadingZeros(2 - |d|, d);
      Zeros(2 - |d|) + d
  }

  /**
    `formatTime`: hours, minutes and seconds of t, each padded to two digits.
    The display always has the shape an edit accepts: two separators and
    nothing but digits between them.
   */
  function FormatTime(t: nat): (text: string)
    ensures Colons(text) == 2 && DigitsAndColons(text) && |text| >= 8
  {
    var h, m, sec := Field(t / 3600), Field(t % 3600 / 60), Field(t % 60);
    ColonsConcat(h, ":" + m + ":" + sec);
    ColonsConcat(":" + m, ":" + sec);
    ColonsConcat(":", m);
    ColonsConcat(":", sec);
    ColonsOfDigits(h);
    ColonsOfDigits(m);
    ColonsOfDigits(sec);
    assert Colons(":") == 1;
    assert h + ":" + m + ":" + sec == h + (":" + m + ":" + sec);
    assert ":" + m + ":" + sec == (":" + m) + (":" + sec);
    h + ":" + m + ":" + sec
  }

  lemma {:induction false} ColonsConcat(a: string, b: string)
    ensures Colons(a + b) == Colons(a) + Colons(b)
    decreases |a|
  {
    if a != [] {
      assert (a + b)[1..] == a[1..] + b;
      ColonsConcat(a[1..], b);
    } else {
      assert a + b == b;
    }
  }

  lemma {:induction false} ColonsOfDigits(a: string)
    requires AllDigits(a)
    ensures Colons(a) == 0
    decreases |a|
  {
    if a != [] {
      ColonsOfDigits(a[1..]);
    }
  }

  /** Number of ':' characters in s. */
  function Colons(s: string): nat {
    if s == [] then 0 else (if s[0] == ':' then 1 else 0) + Colons(s[1..])
  }

  /** `s.split(":")`: the pieces between separators; "" splits into [""]. */
  function Split(s: string): (parts: seq<string>)
    ensures |parts| == Colons(s) + 1
    ensures forall i :: 0 <= i < |parts| ==> ':' !in parts[i]
  {
    if s == [] then [""]
    else
      var rest := Split(s[1..]);
      if s[0] == ':' then [""] + rest
      else [[s[0]] + rest[0]] + rest[1..]
  }

  /** `parts.join(":")`, the inverse of Split. */
  function Join(parts: seq<string>): string
    requires |parts| >= 1
  {
    if |parts| == 1 then parts[0] else parts[0] + ":" + Join(parts[1..])
  }

  /**
    `Number(p)` restricted to what this model reads: "" is 0, a string of
    decimal digits is its value, anything else is NaN (None).
   */
  function ToNumber(p: string): (n: Option<nat>)
    ensures n.Some? <==> AllDigits(p)
    ensures n.Some? ==> n.value == Value(p)
  {
    if p == "" then Some(0)
    else if AllDigits(p) then Some(Value(p))
    else None
  }

  /**
    The edit parse: exactly three parts, each a number, summed as
    hours * 3600 + minutes * 60 + seconds. None stands for a rejected input.
    What it accepts, independently of how it splits: exactly two separators
    and nothing but digits between them (empty pieces count as 0).
   */
  function ParseTime(value: string): (total: Option<nat>)
    ensures total.Some? <==> Colons(value) == 2 && DigitsAndColons(value)
  {
    var parts := Split(value);
    PartsDigits(value);
    assert |parts| == 3 ==>
      (AllPartsDigits(parts) <==> AllDigits(parts[0]) && AllDigits(parts[1]) && AllDigits(parts[2]));
    if |parts| == 3 && ToNumber(parts[0]).Some? && ToNumber(parts[1]).Some?
       && ToNumber(parts[2]).Some?
    then Some(ToNumber(parts[0]).value * 3600 + ToNumber(parts[1]).value * 60
              + ToNumber(parts[2]).value)
    else None
  }

  /** Every character is a separator or a decimal digit. */
  predicate DigitsAndColons(s: string) {
    forall k :: 0 <= k < |s| ==> s[k] == ':' || IsDigit(s[k])
  }

  predicate AllPartsDigits(parts: seq<string>) {
    forall i :: 0 <= i < |parts| ==> AllDigits(parts[i])
  }

  /** Joining the pieces of a split gives the original text back. */
  lemma {:induction false} JoinSplit(s: string)
    ensures Join(Split(s)) == s
  {
    if s != [] {
      var rest := Split(s[1..]);
      JoinSplit(s[1..]);
      if s[0] == ':' {
        assert Split(s) == [""] + rest;
        assert ([""] + rest)[1..] == rest;
      } else {
        var parts := Split(s);
        assert parts == [[s[0]] + rest[0]] + rest[1..];
        if |rest| > 1 {
          assert parts[1..] == rest[1..];
        }
      }
    }
  }

  /** Text without separators splits into itself. */
  lemma {:induction false} SplitNoColon(a: string)
    requires ':' !in a
    ensures Split(a) == [a]
  {
    if a != [] {
      SplitNoColon(a[1..]);
      assert [a[0]] + a[1..] == a;
    }
  }

  /** A separator after colon-free text ends the first piece. */
  lemma {:induction false} SplitAfter(a: string, b: string)
    requires ':' !in a
    ensures Split(a + ":" + b) == [a] + Split(b)
  {
    var s := a + ":" + b;
    if a == [] {
      assert s[1..] == b;
    } else {
      assert s[1..] == a[1..] + ":" + b;
      SplitAfter(a[1..], b);
      assert [a[0]] + a[1..] == a;
    }
  }

  /** Splitting a join of colon-free pieces gives the pieces back. */
  lemma {:induction false} SplitJoin(parts: seq<string>)
    requires |parts| >= 1
    requires forall i :: 0 <= i < |parts| ==> ':' !in parts[i]
    ensures Split(Join(parts)) == parts
  {
    if |parts| == 1 {
      SplitNoColon(parts[0]);
    } else {
      SplitJoin(parts[1..]);
      SplitAfter(parts[0], Join(parts[1..]));
    }
  }

  /** The pieces are all digit strings exactly when every non-separator character is a digit. */
  lemma {:induction false} PartsDigits(s: string)
    ensures AllPartsDigits(Split(s)) <==> DigitsAndColons(s)
  {
    if s != [] {
      PartsDigits(s[1..]);
      var rest := Split(s[1..]);
      var parts := Split(s);
      assert DigitsAndColons(s) <==> (s[0] == ':' || IsDigit(s[0])) && DigitsAndColons(s[1..]) by {
        if (s[0] == ':' || IsDigit(s[0])) && DigitsAndColons(s[1..]) {
          forall k | 0 <= k < |s| ensures s[k] == ':' || IsDigit(s[k]) {
            if k > 0 { assert s[k] == s[1..][k - 1]; }
          }
        }
      }
      if s[0] == ':' {
        assert parts == [""] + rest;
        assert AllPartsDigits(parts) <==> AllPartsDigits(rest) by {
          if AllPartsDigits(rest) {
            forall i | 0 <= i < |parts| ensures AllDigits(parts[i]) {
              if i > 0 { assert parts[i] == rest[i - 1]; }
            }
          }
          if AllPartsDigits(parts) {
            forall i | 0 <= i < |rest| ensures AllDigits(rest[i]) {
              assert rest[i] == parts[i + 1];
            }
          }
        }
      } else {
        var first := [s[0]] + rest[0];
        assert parts == [first] + rest[1..];
        assert AllDigits(first) <==> IsDigit(s[0]) && AllDigits(rest[0]) by {
          if IsDigit(s[0]) && AllDigits(rest[0]) {
            forall k | 0 <= k < |first| ensures IsDigit(first[k]) {
              if k > 0 { assert first[k] == rest[0][k - 1]; }
            }
          }
          if AllDigits(first) {
            assert first[0] == s[0];
            forall k | 0 <= k < |rest[0]| ensures IsDigit(rest[0][k]) {
              assert rest[0][k] == first[k + 1];
            }
          }
        }
        assert AllPartsDigits(parts) <==> AllDigits(first) && AllPartsDigits(rest[1..]) by {
          if AllDigits(first) && AllPartsDigits(rest[1..]) {
            forall i | 0 <= i < |parts| ensures AllDigits(parts[i]) {
              if i > 0 { assert parts[i] == rest[1..][i - 1]; }
            }
          }
          if AllPartsDigits(parts) {
            assert parts[0] == first;
            forall i | 0 <= i < |rest[1..]| ensures AllDigits(rest[1..][i]) {
              assert rest[1..][i] == parts[i + 1];
            }
          }
        }
        assert AllPartsDigits(rest) <==> AllDigits(rest[0]) && AllPartsDigits(rest[1..]) by {
          if AllDigits(rest[0]) && AllPartsDigits(rest[1..]) {
            forall i | 0 <= i < |rest| ensures AllDigits(rest[i]) {
              if i > 0 { assert rest[i] == rest[1..][i - 1]; }
            }
          }
        }
      }
    }
  }

  /** Splitting the displayed text gives back its three padded fields. */
  lemma SplitFormatTime(t: nat)
    ensures Split(FormatTime(t)) == [Field(t / 3600), Field(t % 3600 / 60), Field(t % 60)]
  {
    var fields := [Field(t / 3600), Field(t % 3600 / 60), Field(t % 60)];
    assert fields[1..][1..] == [fields[2]];
    assert Join(fields[1..]) == fields[1] + ":" + fields[2];
    assert FormatTime(t) == Join(fields);
    SplitJoin(fields);
  }

  lemma HoursMinutesSeconds(t: nat)
    ensures t % 3600 / 60 < 60 && t % 60 < 60
    ensures (t / 3600) * 3600 + (t % 3600 / 60) * 60 + t % 60 == t
    ensures t < 360000 ==> t / 3600 < 100
  {
  }

  /**
    The displayed text has three two-or-more-digit fields: minutes and seconds
    below 60 and exactly two digits, hours two digits below 100 hours, and
    the fields add back up to t.
   */
  lemma FormatTimeFields(t: nat)
    ensures var p := Split(FormatTime(t));
      && |p| == 3
      && (forall i :: 0 <= i < 3 ==> AllDigits(p[i]) && |p[i]| >= 2)
      && |p[1]| == 2 && |p[2]| == 2
      && (t < 360000 ==> |p[0]| == 2)
      && Value(p[1]) < 60 && Value(p[2]) < 60
      && Value(p[0]) * 3600 + Value(p[1]) * 60 + Value(p[2]) == t
  {
    SplitFormatTime(t);
    HoursMinutesSeconds(t);
    var h, m, sec := t / 3600, t % 3600 / 60, t % 60;
    var p := Split(FormatTime(t));
    assert p[0] == Field(h) && p[1] == Field(m) && p[2] == Field(sec);
    assert Value(p[0]) == h && Value(p[1]) == m && Value(p[2]) == sec;
  }

  /** Round trip: committing the displayed text of t parses back to exactly t. */
  lemma ParseFormatted(t: nat)
    ensures ParseTime(FormatTime(t)) == Some(t)
  {
    SplitFormatTime(t);
    HoursMinutesSeconds(t);
  }

  /** Two sample edits: "00:01:30" is 90 seconds; "abc" is rejected. */
  lemma ParseExamples()
    ensures ParseTime("00:01:30") == Some(90)
    ensures ParseTime("abc") == None
  {
    assert "00:01:30" == Join(["00", "01", "30"]);
    SplitJoin(["00", "01", "30"]);
    assert Value("00") == 0 && Value("01") == 1 && Value("30") == 30;
    assert Colons("abc") == 0;
  }
}
