/**
 * Input validators of helpers.py: the machine-id check `ISVALIDMACHINEID`
 * and the phone cleaner `KEEPDIGITSONLY`.
 */
module Helpers {
  import opened Wrappers

  /** One bracketed character class of a regular expression, `[MF]` or `[A-D]`. */
  datatype CharClass = OneOf(chars: set<char>) | Range(lo: char, hi: char) {
    predicate Matches(c: char)
    {
      match this
      case OneOf(cs) => c in cs
      case Range(lo, hi) => lo <= c <= hi
    }
  }

  /** `MACHINEID_PATTERN`, `^[MF][A-D][1-8]$`: three character classes anchored at both ends. */
  const MachineIdPattern: seq<CharClass> := [OneOf({'M', 'F'}), Range('A', 'D'), Range('1', '8')]

  /** `re.fullmatch` of a pattern made of character classes only: the whole string, one class per character. */
  predicate FullMatch(pattern: seq<CharClass>, s: string)
  {
    if pattern == [] then s == []
    else s != [] && pattern[0].Matches(s[0]) && FullMatch(pattern[1..], s[1..])
  }

  lemma {:induction false} FullMatchIff(pattern: seq<CharClass>, s: string)
    ensures FullMatch(pattern, s) <==>
      |s| == |pattern| && forall i :: 0 <= i < |s| ==> pattern[i].Matches(s[i])
  {
    if pattern != [] && s != [] {
      FullMatchIff(pattern[1..], s[1..]);
      if |s| == |pattern| && forall i :: 0 <= i < |s| ==> pattern[i].Matches(s[i]) {
        assert forall i :: 0 <= i < |s| - 1 ==> pattern[1..][i].Matches(s[1..][i]) by {
          forall i | 0 <= i < |s| - 1 ensures pattern[1..][i].Matches(s[1..][i]) {
            assert pattern[i + 1].Matches(s[i + 1]);
          }
        }
      }
      if FullMatch(pattern, s) {
        forall i | 0 <= i < |s| ensures pattern[i].Matches(s[i]) {
          if i > 0 {
            assert pattern[1..][i - 1].Matches(s[1..][i - 1]);
          }
        }
      }
    }
  }

  /**
   * `ISVALIDMACHINEID`: `None` is rejected, anything else must fully match
   * `MachineIdPattern`, that is, be a floor letter, a hall letter and a machine number.
   */
  function IsValidMachineId(machineId: Option<string>): (valid: bool)
    ensures valid <==>
      && machineId.Some?
      && |machineId.value| == 3
      && machineId.value[0] in {'M', 'F'}
      && machineId.value[1] in {'A', 'B', 'C', 'D'}
      && machineId.value[2] in {'1', '2', '3', '4', '5', '6', '7', '8'}
  {
    match machineId
    case None => false
    case Some(s) =>
      FullMatchIff(MachineIdPattern, s);
      FullMatch(MachineIdPattern, s)
  }

  /** Because the match is anchored, wrong lengths, lower case and the digits 0 and 9 are refused. */
  lemma MachineIdRejections(s: string)
    ensures |s| != 3 ==> !IsValidMachineId(Some(s))
    ensures |s| == 3 && 'a' <= s[0] <= 'z' ==> !IsValidMachineId(Some(s))
    ensures |s| == 3 && 'a' <= s[1] <= 'z' ==> !IsValidMachineId(Some(s))
    ensures |s| == 3 && (s[2] == '0' || s[2] == '9') ==> !IsValidMachineId(Some(s))
    ensures !IsValidMachineId(Some(""))
    ensures IsValidMachineId(Some("MA1")) && IsValidMachineId(Some("FD8"))
    ensures !IsValidMachineId(Some("ma1")) && !IsValidMachineId(Some("MA0")) && !IsValidMachineId(Some("MA9"))
    ensures !IsValidMachineId(Some("MA12")) && !IsValidMachineId(Some("XA1")) && !IsValidMachineId(Some("ME1"))
  {
  }

  /** `str.isdigit`, restricted to the ASCII digits. */
  predicate IsDigit(c: char)
  {
    '0' <= c <= '9'
  }

  /** The digit characters of `s`, in their order: the filter that `KEEPDIGITSONLY` computes. */
  function DigitsOf(s: string): (r: string)
    ensures |r| <= |s|
    ensures forall i :: 0 <= i < |r| ==> IsDigit(r[i])
  {
    if s == [] then [] else (if IsDigit(s[0]) then [s[0]] else []) + DigitsOf(s[1..])
  }

  /** The filter distributes over concatenation, so it keeps the relative order of the digits. */
  lemma {:induction false} DigitsOfAppend(a: string, b: string)
    ensures DigitsOf(a + b) == DigitsOf(a) + DigitsOf(b)
  {
    if a == [] {
      assert a + b == b;
    } else {
      assert (a + b)[1..] == a[1..] + b;
      DigitsOfAppend(a[1..], b);
    }
  }

  /** Every digit of `s` is kept as often as it occurs, and nothing else is kept. */
  lemma {:induction false} DigitsOfCounts(s: string, c: char)
    ensures multiset(DigitsOf(s))[c] == if IsDigit(c) then multiset(s)[c] else 0
  {
    if s != [] {
      DigitsOfCounts(s[1..], c);
      assert s == [s[0]] + s[1..];
      assert multiset(s) == multiset([s[0]]) + multiset(s[1..]);
    }
  }

  /** A string made of digits only is left as it is. */
  lemma {:induction false} AllDigitsFixedPoint(s: string)
    requires forall i :: 0 <= i < |s| ==> IsDigit(s[i])
    ensures DigitsOf(s) == s
  {
    if s != [] {
      AllDigitsFixedPoint(s[1..]);
    }
  }

  /** Cleaning twice is cleaning once. */
  lemma DigitsOfIdempotent(s: string)
    ensures DigitsOf(DigitsOf(s)) == DigitsOf(s)
  {
    AllDigitsFixedPoint(DigitsOf(s));
  }

  /** `KEEPDIGITSONLY`: `None` gives `""`; otherwise the loop appends each digit character in turn. */
  method KeepDigitsOnly(text: Option<string>) returns (digits: string)
    ensures text.None? ==> digits == ""
    ensures text.Some? ==> digits == DigitsOf(text.value)
    ensures text.Some? ==> |digits| <= |text.value|
    ensures forall i :: 0 <= i < |digits| ==> IsDigit(digits[i])
  {
    if text.None? {
      return "";
    }
    var t := text.value;
    digits := "";
    for i := 0 to |t|
      invariant digits == DigitsOf(t[..i])
    {
      assert t[..i + 1] == t[..i] + [t[i]];
      DigitsOfAppend(t[..i], [t[i]]);
      if IsDigit(t[i]) {
        digits := digits + [t[i]];
      }
    }
    assert t[..|t|] == t;
  }
}
