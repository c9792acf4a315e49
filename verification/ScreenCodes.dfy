/** app/repositories/screen_repository.py: generated screen codes S1, S2, ... */
module ScreenCodes {
  import opened Common
  import opened Slug

  predicate IsDigit(c: char) { '0' <= c <= '9' }

  predicate IsDigits(s: string) { s != "" && forall i :: 0 <= i < |s| ==> IsDigit(s[i]) }

  /** Python's `int` on a string of digits; leading zeros are allowed. */
  function ParseNat(s: string): nat
    requires forall i :: 0 <= i < |s| ==> IsDigit(s[i])
  {
    if s == "" then 0
    else
      assert IsDigit(s[|s| - 1]);
      10 * ParseNat(s[..|s| - 1]) + (s[|s| - 1] as int - '0' as int)
  }

  function PrintNat(n: nat): string {
    var last := ('0' as int + n % 10) as char;
    if n < 10 then [last] else PrintNat(n / 10) + [last]
  }

  lemma {:induction false} ParsePrint(n: nat)
    ensures IsDigits(PrintNat(n)) && ParseNat(PrintNat(n)) == n
  {
    if n >= 10 {
      ParsePrint(n / 10);
      var s := PrintNat(n);
      assert s[..|s| - 1] == PrintNat(n / 10);
    }
  }

  function Power10(n: nat): nat { if n == 0 then 1 else 10 * Power10(n - 1) }

  /** Decimal value: each digit counts its power of ten, and leading zeros count nothing. */
  lemma {:induction false} DecimalValue(d: char, s: string)
    requires IsDigit(d) && forall i :: 0 <= i < |s| ==> IsDigit(s[i])
    ensures (forall i :: 0 <= i < |[d] + s| ==> IsDigit(([d] + s)[i]))
    ensures ParseNat([d] + s) == (d as int - '0' as int) * Power10(|s|) + ParseNat(s)
  {
    var t := [d] + s;
    if s == "" {
      assert t[..|t| - 1] == "";
    } else {
      var init := s[..|s| - 1];
      assert t[..|t| - 1] == [d] + init && t[|t| - 1] == s[|s| - 1];
      DecimalValue(d, init);
      assert 10 * ((d as int - '0' as int) * Power10(|init|)) == (d as int - '0' as int) * Power10(|s|);
    }
  }

  /** The number of a code of the form S followed by digits. */
  function Suffix(code: string): Option<nat> {
    if code != "" && code[0] == 'S' && IsDigits(code[1..]) then Some(ParseNat(code[1..])) else None
  }

  function MaxSuffix(codes: seq<string>): nat {
    if codes == [] then 0
    else
      var rest, last := MaxSuffix(codes[..|codes| - 1]), Suffix(codes[|codes| - 1]);
      if last.Some? && last.value > rest then last.value else rest
  }

  function NextCode(codes: seq<string>): string {
    "S" + PrintNat(MaxSuffix(codes) + 1)
  }

  /** The loop of `next_screen_code`. */
  method NextScreenCode(codes: seq<string>) returns (code: string)
    ensures code == NextCode(codes)
  {
    var maxSuffix := 0;
    for i := 0 to |codes|
      invariant maxSuffix == MaxSuffix(codes[..i])
    {
      assert codes[..i + 1][..i] == codes[..i];
      if codes[i] != "" && codes[i][0] == 'S' && IsDigits(codes[i][1..]) {
        maxSuffix := Max(maxSuffix, ParseNat(codes[i][1..]));
      }
    }
    assert codes[..|codes|] == codes;
    code := "S" + PrintNat(maxSuffix + 1);
  }

  lemma {:induction false} MaxSuffixBounds(codes: seq<string>, code: string)
    requires code in codes && Suffix(code).Some?
    ensures Suffix(code).value <= MaxSuffix(codes)
  {
    if code != codes[|codes| - 1] {
      MaxSuffixBounds(codes[..|codes| - 1], code);
    }
  }

  lemma NextCodeSuffix(codes: seq<string>)
    ensures Suffix(NextCode(codes)) == Some(MaxSuffix(codes) + 1) && IsSlug(NextCode(codes))
  {
    ParsePrint(MaxSuffix(codes) + 1);
    assert NextCode(codes)[1..] == PrintNat(MaxSuffix(codes) + 1);
  }

  /** A generated code is a slug that no screen has yet, whatever codes the table holds. */
  lemma NextCodeIsFresh(codes: seq<string>)
    ensures NextCode(codes) !in codes && IsSlug(NextCode(codes))
  {
    NextCodeSuffix(codes);
    if NextCode(codes) in codes {
      MaxSuffixBounds(codes, NextCode(codes));
    }
  }

  lemma {:induction false} MaxSuffixIsTaken(codes: seq<string>)
    ensures MaxSuffix(codes) == 0 || exists c :: c in codes && Suffix(c) == Some(MaxSuffix(codes))
  {
    if codes != [] {
      MaxSuffixIsTaken(codes[..|codes| - 1]);
      assert codes[|codes| - 1] in codes;
    }
  }

  /** The generated code is S and a number: one more than some code's of that form, or 1, and larger than
      every such code's. */
  lemma NextCodeIsOnePast(codes: seq<string>)
    ensures var next := NextCode(codes);
      && next[0] == 'S' && IsDigits(next[1..])
      && (forall c :: c in codes && c != "" && c[0] == 'S' && IsDigits(c[1..]) ==>
            ParseNat(c[1..]) < ParseNat(next[1..]))
      && (ParseNat(next[1..]) == 1
          || exists c :: c in codes && c != "" && c[0] == 'S' && IsDigits(c[1..])
                         && ParseNat(c[1..]) + 1 == ParseNat(next[1..]))
  {
    NextCodeSuffix(codes);
    MaxSuffixIsTaken(codes);
    forall c | c in codes && c != "" && c[0] == 'S' && IsDigits(c[1..]) ensures ParseNat(c[1..]) <= MaxSuffix(codes) {
      MaxSuffixBounds(codes, c);
    }
  }

  /** As long as a generated code stays in the table, later generated suffixes are larger. */
  lemma GeneratedSuffixesGrow(codes: seq<string>, later: seq<string>)
    requires NextCode(codes) in later
    ensures Suffix(NextCode(codes)).Some? && Suffix(NextCode(later)).Some?
    ensures Suffix(NextCode(codes)).value < Suffix(NextCode(later)).value
  {
    NextCodeSuffix(codes);
    NextCodeSuffix(later);
    MaxSuffixBounds(later, NextCode(codes));
  }

  /** The next number is one past the largest in use, and the least that exceeds all of them. */
  lemma {:induction false} MaxSuffixIsLeast(codes: seq<string>, bound: nat)
    requires forall c :: c in codes && Suffix(c).Some? ==> Suffix(c).value <= bound
    ensures MaxSuffix(codes) <= bound
  {
    if codes != [] {
      MaxSuffixIsLeast(codes[..|codes| - 1], bound);
    }
  }
}
