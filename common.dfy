/** Shared vocabulary: optional values, results, and the few Python string
    primitives (str.isspace, str.strip, str.join, slicing, str(int)) that
    the modelled code relies on. */
module Common {

  datatype Option<+T> = None | Some(value: T)

  datatype Result<+T, +E> = Ok(value: T) | Err(error: E)

  /** A JSON-like scalar held in a metadata dictionary. */
  datatype Value = Text(s: string) | Number(n: int)

  /** A metadata dictionary: string keys to scalars. */
  type Metadata = map<string, Value>

  /** The character budgets of the generation settings (eduweave/config.py):
      for the answer context, the summary source and the MCQ source. */
  datatype GenerationConfig = GenerationConfig(maxContextChars: int, maxSummaryChars: int, maxMcqChars: int)

  const DefaultGenerationConfig: GenerationConfig := GenerationConfig(6000, 4500, 5000)

  /** Python's notion of whitespace (str.isspace, and `\s` in a str regex). */
  predicate IsSpace(c: char) {
    c == ' ' || ('\t' <= c <= '\r') || ('\U{1C}' <= c <= '\U{1F}')
    || c == '\U{85}' || c == '\U{A0}' || c == '\U{1680}'
    || ('\U{2000}' <= c <= '\U{200A}') || c == '\U{2028}' || c == '\U{2029}'
    || c == '\U{202F}' || c == '\U{205F}' || c == '\U{3000}'
  }

  predicate AllSpace(s: string) {
    forall i :: 0 <= i < |s| ==> IsSpace(s[i])
  }

  /** The characters of `s` that are not whitespace, in order. */
  function NonSpace(s: string): string {
    if s == [] then []
    else if IsSpace(s[0]) then NonSpace(s[1..])
    else [s[0]] + NonSpace(s[1..])
  }

  lemma {:induction false} NonSpaceAppend(a: string, b: string)
    ensures NonSpace(a + b) == NonSpace(a) + NonSpace(b)
  {
    if a != [] {
      assert (a + b)[0] == a[0];
      assert (a + b)[1..] == a[1..] + b;
      NonSpaceAppend(a[1..], b);
    } else {
      assert a + b == b;
    }
  }

  lemma {:induction false} NonSpaceEmpty(s: string)
    ensures NonSpace(s) == [] <==> AllSpace(s)
  {
    if s != [] {
      NonSpaceEmpty(s[1..]);
    }
  }

  /** The number of whitespace characters `s` starts with. */
  function LeadingSpaces(s: string): (k: nat)
    ensures k <= |s|
    ensures forall i :: 0 <= i < k ==> IsSpace(s[i])
    ensures k < |s| ==> !IsSpace(s[k])
  {
    if s != [] && IsSpace(s[0]) then 1 + LeadingSpaces(s[1..]) else 0
  }

  /** The number of whitespace characters `s` ends with. */
  function TrailingSpaces(s: string): (k: nat)
    ensures k <= |s|
    ensures forall i :: |s| - k <= i < |s| ==> IsSpace(s[i])
    ensures k < |s| ==> !IsSpace(s[|s| - k - 1])
  {
    if s != [] && IsSpace(s[|s| - 1]) then 1 + TrailingSpaces(s[..|s| - 1]) else 0
  }

  /** Where the text kept by str.strip() begins. */
  function StripStart(s: string): nat
    ensures StripStart(s) <= |s|
  {
    LeadingSpaces(s)
  }

  /** str.strip(): the contiguous middle of `s` between its leading and
      trailing whitespace. */
  function Strip(s: string): (r: string)
    ensures StripStart(s) + |r| <= |s| && r == s[StripStart(s)..StripStart(s) + |r|]
    ensures r == [] || (!IsSpace(r[0]) && !IsSpace(r[|r| - 1]))
  {
    var a := LeadingSpaces(s);
    if a == |s| then []
    else
      var b := TrailingSpaces(s);
      assert !IsSpace(s[a]);
      s[a..|s| - b]
  }

  /** Strip gives the empty string exactly for all-whitespace input. */
  lemma {:induction false} StripEmptyIff(s: string)
    ensures Strip(s) == [] <==> AllSpace(s)
  {
    if !AllSpace(s) {
      var i :| 0 <= i < |s| && !IsSpace(s[i]);
      assert LeadingSpaces(s) <= i;
    }
  }

  /** Strip does not change a string that has no whitespace at either end. */
  lemma {:induction false} StripUnchanged(s: string)
    requires s == [] || (!IsSpace(s[0]) && !IsSpace(s[|s| - 1]))
    ensures Strip(s) == s
  {
  }

  /** LeadingSpaces is the index of the first non-whitespace character. */
  lemma {:induction false} LeadingSpacesIs(s: string, k: nat)
    requires k < |s| && !IsSpace(s[k])
    requires forall i :: 0 <= i < k ==> IsSpace(s[i])
    ensures LeadingSpaces(s) == k
  {
  }

  /** TrailingSpaces counts back to the last non-whitespace character. */
  lemma {:induction false} TrailingSpacesIs(s: string, k: nat)
    requires k < |s| && !IsSpace(s[|s| - k - 1])
    requires forall i :: |s| - k <= i < |s| ==> IsSpace(s[i])
    ensures TrailingSpaces(s) == k
  {
  }

  /** Strip in terms of the two whitespace counts. */
  lemma {:induction false} StripBetween(s: string, a: nat, b: nat)
    requires a < |s| && LeadingSpaces(s) == a && TrailingSpaces(s) == b
    ensures a <= |s| - b && Strip(s) == s[a..|s| - b]
  {
  }

  /** The middle of x + c + y with a characters cut from the front and b from
      the back. */
  lemma {:induction false} MiddleOfThree(x: string, c: string, y: string, a: nat, b: nat)
    requires a <= |x| && b <= |y|
    ensures var s := x + c + y;
      s[a..|s| - b] == x[a..] + c + y[..|y| - b]
  {
    var s := x + c + y;
    var m := x[a..] + c + y[..|y| - b];
    assert |s[a..|s| - b]| == |m|;
    forall i | 0 <= i < |m|
      ensures s[a..|s| - b][i] == m[i]
    {
      if i < |x| - a {
        assert m[i] == x[a + i];
      } else if i < |x| - a + |c| {
        assert m[i] == c[i - (|x| - a)];
      } else {
        assert m[i] == y[i - (|x| - a) - |c|];
      }
    }
  }

  /** The leading whitespace of x + c is that of x when x is not all
      whitespace. */
  lemma {:induction false} LeadingOfAppend(x: string, c: string)
    requires x != [] && !IsSpace(x[|x| - 1])
    ensures LeadingSpaces(x) < |x| && LeadingSpaces(x + c) == LeadingSpaces(x)
  {
    var s := x + c;
    var a := LeadingSpaces(x);
    assert a < |x|;
    assert forall i :: 0 <= i < a ==> s[i] == x[i];
    assert s[a] == x[a];
    LeadingSpacesIs(s, a);
  }

  /** The trailing whitespace of c + y is that of y when y is not all
      whitespace. */
  lemma {:induction false} TrailingOfPrepend(c: string, y: string)
    requires y != [] && !IsSpace(y[0])
    ensures TrailingSpaces(y) < |y| && TrailingSpaces(c + y) == TrailingSpaces(y)
  {
    var s := c + y;
    var b := TrailingSpaces(y);
    assert b < |y|;
    assert forall i :: |s| - b <= i < |s| ==> s[i] == y[i - |c|];
    assert s[|s| - b - 1] == y[|y| - b - 1];
    TrailingSpacesIs(s, b);
  }

  /** Strip of a string that does not end in whitespace cuts only its front. */
  lemma {:induction false} StripFront(x: string)
    requires x != [] && !IsSpace(x[|x| - 1])
    ensures LeadingSpaces(x) < |x| && Strip(x) == x[LeadingSpaces(x)..]
  {
    LeadingOfAppend(x, []);
    TrailingSpacesIs(x, 0);
    StripBetween(x, LeadingSpaces(x), 0);
  }

  /** Strip of a string that does not start with whitespace cuts only its
      back. */
  lemma {:induction false} StripBack(y: string)
    requires y != [] && !IsSpace(y[0])
    ensures TrailingSpaces(y) < |y| && Strip(y) == y[..|y| - TrailingSpaces(y)]
  {
    TrailingOfPrepend([], y);
    LeadingSpacesIs(y, 0);
    StripBetween(y, 0, TrailingSpaces(y));
  }

  /** Strip of x + " " + y cuts x's leading and y's trailing whitespace. */
  lemma {:induction false} StripJoined(x: string, y: string)
    requires x != [] && !IsSpace(x[|x| - 1])
    requires y != [] && !IsSpace(y[0])
    ensures var s := x + " " + y;
      LeadingSpaces(x) <= |s| - TrailingSpaces(y) <= |s|
      && Strip(s) == s[LeadingSpaces(x)..|s| - TrailingSpaces(y)]
  {
    var s := x + " " + y;
    LeadingOfAppend(x, " " + y);
    TrailingOfPrepend(x + " ", y);
    AppendAssoc(x, " ", y);
    StripBetween(s, LeadingSpaces(x), TrailingSpaces(y));
  }

  /** Stripping x + " " + y, where x does not end and y does not start with
      whitespace, strips x's front and y's back and keeps the space. */
  lemma {:induction false} StripAround(x: string, y: string)
    requires x != [] && !IsSpace(x[|x| - 1])
    requires y != [] && !IsSpace(y[0])
    ensures Strip(x + " " + y) == Strip(x) + " " + Strip(y)
  {
    StripFront(x);
    StripBack(y);
    StripJoined(x, y);
    MiddleOfThree(x, " ", y, LeadingSpaces(x), TrailingSpaces(y));
  }

  /** Stripping removes whitespace only, so the non-whitespace content is kept. */
  lemma {:induction false} StripKeepsContent(s: string)
    ensures NonSpace(Strip(s)) == NonSpace(s)
  {
    if Strip(s) == [] {
      NonSpaceEmpty(s);
    } else {
      StripIsMiddle(s);
      EndsAreSpace(s);
      MiddleKeepsContent(s, LeadingSpaces(s), TrailingSpaces(s), Strip(s));
    }
  }

  lemma {:induction false} EndsAreSpace(s: string)
    ensures AllSpace(s[..LeadingSpaces(s)]) && AllSpace(s[|s| - TrailingSpaces(s)..])
  {
    HeadIsSpace(s, LeadingSpaces(s));
    TailIsSpace(s, TrailingSpaces(s));
  }

  lemma {:induction false} HeadIsSpace(s: string, a: nat)
    requires a <= |s| && forall i :: 0 <= i < a ==> IsSpace(s[i])
    ensures AllSpace(s[..a])
  {
    var head := s[..a];
    assert forall i :: 0 <= i < a ==> head[i] == s[i];
  }

  lemma {:induction false} TailIsSpace(s: string, b: nat)
    requires b <= |s| && forall i :: |s| - b <= i < |s| ==> IsSpace(s[i])
    ensures AllSpace(s[|s| - b..])
  {
    var tail := s[|s| - b..];
    assert forall i :: 0 <= i < b ==> tail[i] == s[|s| - b + i];
  }

  lemma {:induction false} StripIsMiddle(s: string)
    requires Strip(s) != []
    ensures LeadingSpaces(s) + TrailingSpaces(s) <= |s|
    ensures Strip(s) == s[LeadingSpaces(s)..|s| - TrailingSpaces(s)]
  {
    assert LeadingSpaces(s) != |s|;
  }

  lemma {:induction false} MiddleKeepsContent(s: string, a: nat, b: nat, r: string)
    requires a + b <= |s| && r == s[a..|s| - b]
    requires AllSpace(s[..a]) && AllSpace(s[|s| - b..])
    ensures NonSpace(r) == NonSpace(s)
  {
    var head, rest := s[..a], s[a..];
    var tail := s[|s| - b..];
    assert s == head + rest;
    assert rest == r + tail;
    NonSpaceAppend(head, rest);
    NonSpaceAppend(r, tail);
    AllSpaceNonSpace(head);
    AllSpaceNonSpace(tail);
  }

  lemma {:induction false} AllSpaceNonSpace(s: string)
    requires AllSpace(s)
    ensures NonSpace(s) == []
  {
    NonSpaceEmpty(s);
  }

  /** "sep".join(parts) */
  function Join(sep: string, parts: seq<string>): (r: string)
    ensures parts == [] ==> r == []
    ensures |parts| == 1 ==> r == parts[0]
  {
    if parts == [] then []
    else if |parts| == 1 then parts[0]
    else parts[0] + sep + Join(sep, parts[1..])
  }

  /** Joining is empty exactly when every part is empty and there is at
      most one part (a separator appears between any two parts). */
  lemma {:induction false} JoinEmptyIff(sep: string, parts: seq<string>)
    requires sep != []
    ensures Join(sep, parts) == [] <==> (|parts| <= 1 && forall i :: 0 <= i < |parts| ==> parts[i] == [])
  {
    if |parts| > 1 {
      assert |Join(sep, parts)| >= |sep|;
    }
  }

  /** Python list indexing: negative indices count from the end, anything
      else out of range is an IndexError (None). */
  function PyGet<T>(s: seq<T>, i: int): (r: Option<T>)
    ensures r.Some? <==> -|s| <= i < |s|
    ensures 0 <= i < |s| ==> r == Some(s[i])
    ensures -|s| <= i < 0 ==> r == Some(s[|s| + i])
  {
    if 0 <= i < |s| then Some(s[i])
    else if -|s| <= i < 0 then Some(s[|s| + i])
    else None
  }

  /** Python slice s[:k]: a negative k counts from the end. */
  function PyPrefix<T>(s: seq<T>, k: int): (r: seq<T>)
    ensures |r| <= |s| && r == s[..|r|]
    ensures k >= 0 ==> |r| == if k < |s| then k else |s|
    ensures k < 0 ==> |r| == if |s| + k > 0 then |s| + k else 0
  {
    if k >= 0 then (if k < |s| then s[..k] else s)
    else if |s| + k > 0 then s[..|s| + k] else []
  }

  function DigitChar(d: nat): char
    requires d < 10
  {
    "0123456789"[d]
  }

  /** str(n) for a natural number: its decimal digits, most significant first. */
  function NatToString(n: nat): (r: string)
    ensures |r| >= 1
    ensures forall i :: 0 <= i < |r| ==> '0' <= r[i] <= '9'
    ensures n >= 10 ==> r[0] != '0'
  {
    if n < 10 then [DigitChar(n)]
    else NatToString(n / 10) + [DigitChar(n % 10)]
  }

  /** The value of a string of decimal digits, most significant first. */
  function DigitsValue(s: string): int
    requires forall i :: 0 <= i < |s| ==> '0' <= s[i] <= '9'
  {
    if s == [] then 0 else 10 * DigitsValue(s[..|s| - 1]) + (s[|s| - 1] as int - '0' as int)
  }

  lemma {:induction false} DigitCharValue(d: nat)
    requires d < 10
    ensures DigitChar(d) as int - '0' as int == d
  {
    assert "0123456789"[d] as int == '0' as int + d;
  }

  /** Reading back the digits of str(n) gives n. */
  lemma {:induction false} NatToStringRoundTrip(n: nat)
    ensures DigitsValue(NatToString(n)) == n
  {
    var r := NatToString(n);
    if n < 10 {
      assert r[..0] == [];
      DigitCharValue(n);
    } else {
      var p := NatToString(n / 10);
      NatToStringRoundTrip(n / 10);
      assert r == p + [DigitChar(n % 10)];
      assert r[..|r| - 1] == p;
      DigitCharValue(n % 10);
    }
  }

  /** str(n) for any int. */
  function IntToString(n: int): (r: string)
    ensures |r| >= 1
    ensures n < 0 <==> r[0] == '-'
  {
    if n < 0 then "-" + NatToString(-n) else NatToString(n)
  }

  /** Concatenation regrouped, as a step a proof can cite. */
  lemma {:induction false} AppendAssoc<T>(a: seq<T>, b: seq<T>, c: seq<T>)
    ensures (a + b) + c == a + (b + c)
  {
  }

  /** Where the pieces of a + n + m + c + z sit. */
  lemma {:induction false} PartsOfFive(a: string, n: string, m: string, c: string, z: string)
    ensures var p := a + n + m + c + z;
      && |p| >= |a| + |n| + |m| + |c|
      && p[..|a|] == a
      && p[|a|..|a| + |n|] == n
      && p[|a| + |n| + |m|..|a| + |n| + |m| + |c|] == c
  {
    var p := a + n + m + c + z;
    assert forall i :: 0 <= i < |n| ==> p[|a|..|a| + |n|][i] == n[i];
    var k := |a| + |n| + |m|;
    assert forall i :: 0 <= i < |c| ==> p[k..k + |c|][i] == c[i];
  }

  /** Where the pieces of x + c + z sit. */
  lemma {:induction false} PartsOfThree(x: string, c: string, z: string)
    ensures var p := x + c + z;
      && |p| >= |x| + |c| && p[..|x|] == x && p[|x|..|x| + |c|] == c
  {
    var p := x + c + z;
    assert forall i :: 0 <= i < |c| ==> p[|x|..|x| + |c|][i] == c[i];
  }

  /** Where the pieces of x + y + c + z sit. */
  lemma {:induction false} PartsOfFour(x: string, y: string, c: string, z: string)
    ensures var p := x + (y + c + z);
      var k := |x| + |y|;
      && |p| >= k + |c| && p[..|x|] == x && p[k..k + |c|] == c
  {
    var p := x + (y + c + z);
    var k := |x| + |y|;
    assert forall i :: 0 <= i < |c| ==> p[k..k + |c|][i] == c[i];
  }

  function Max(a: int, b: int): int { if a >= b then a else b }
  function Min(a: int, b: int): int { if a <= b then a else b }
}
