/** State tag names, and the slice number that gc_state reads back from one. */
module TagNames {
  import opened Prelude
  import opened Sums

  // ---- printing and reading integers -----------------------------------------------------

  predicate IsDigit(c: char) {
    '0' <= c <= '9'
  }

  function Decimal(n: nat): string {
    if n < 10 then [('0' as int + n) as char] else Decimal(n / 10) + [('0' as int + n % 10) as char]
  }

  /** Digits with single underscores between them, as Python's `int` reads them. */
  function DigitsValue(s: string): Option<nat> {
    if s == "" || !IsDigit(s[|s| - 1]) then None
    else
      var d, rest := s[|s| - 1] as int - '0' as int, s[..|s| - 1];
      if rest == "" then Some(d)
      else
        match DigitsValue(if rest[|rest| - 1] == '_' then rest[..|rest| - 1] else rest)
        case None => None
        case Some(v) => Some(10 * v + d)
  }

  function StripLeft(s: string): string {
    if s != "" && IsSpace(s[0]) then StripLeft(s[1..]) else s
  }

  function StripRight(s: string): string {
    if s != "" && IsSpace(s[|s| - 1]) then StripRight(s[..|s| - 1]) else s
  }

  /** `int(s)`, None standing for ValueError. */
  function ParseInt(s: string): Option<int> {
    var t := StripRight(StripLeft(s));
    if t != "" && (t[0] == '-' || t[0] == '+') then
      match DigitsValue(t[1..])
      case None => None
      case Some(v) => var value: int := v; Some(if t[0] == '-' then -value else value)
    else
      match DigitsValue(t)
      case None => None
      case Some(v) => Some(v)
  }

  lemma {:induction false} DecimalDigits(n: nat)
    ensures Decimal(n) != "" && forall i | 0 <= i < |Decimal(n)| :: IsDigit(Decimal(n)[i])
    ensures DigitsValue(Decimal(n)) == Some(n)
  {
    if n >= 10 {
      DecimalDigits(n / 10);
      var s := Decimal(n);
      assert s[..|s| - 1] == Decimal(n / 10);
      assert IsDigit(Decimal(n / 10)[|Decimal(n / 10)| - 1]);
    }
  }

  lemma DigitIsNotSpace(c: char)
    requires IsDigit(c)
    ensures !IsSpace(c) && c != '-' && c != '+'
  {
    assert 48 <= c as int <= 57;
  }

  lemma ParseDecimal(n: nat)
    ensures ParseInt(Decimal(n)) == Some(n)
  {
    DecimalDigits(n);
    var s := Decimal(n);
    DigitIsNotSpace(s[0]);
    DigitIsNotSpace(s[|s| - 1]);
    assert StripLeft(s) == s;
    assert StripRight(s) == s;
  }

  /** Signs, white space around the number and single underscores inside it are accepted. */
  lemma SignIsKept(sign: char, s: string)
    requires sign in {'-', '+'} && s != "" && IsDigit(s[|s| - 1])
    ensures StripRight(StripLeft([sign] + s)) == [sign] + s
  {
    DigitIsNotSpace(s[|s| - 1]);
    assert sign as int in {43, 45} && !IsSpace(sign);
  }

  lemma ParseSigned(n: nat, minus: int)
    requires minus + n == 0
    ensures ParseInt(['-'] + Decimal(n)) == Some(minus) && ParseInt(['+'] + Decimal(n)) == Some(n)
  {
    DecimalDigits(n);
    var s := Decimal(n);
    SignIsKept('-', s);
    SignIsKept('+', s);
    assert (['-'] + s)[1..] == s && (['+'] + s)[1..] == s;
  }

  lemma {:induction false} StripLeftSpaces(left: string, s: string)
    requires forall c | c in left :: IsSpace(c)
    ensures StripLeft(left + s) == StripLeft(s)
  {
    if left == "" {
      assert left + s == s;
    } else {
      StripLeftSpaces(left[1..], s);
      assert (left + s)[1..] == left[1..] + s && (left + s)[0] == left[0] && left[0] in left;
    }
  }

  lemma {:induction false} StripRightSpaces(s: string, right: string)
    requires forall c | c in right :: IsSpace(c)
    ensures StripRight(s + right) == StripRight(s)
  {
    if right == "" {
      assert s + right == s;
    } else {
      var n := |right| - 1;
      StripRightSpaces(s, right[..n]);
      assert (s + right)[..|s| + n] == s + right[..n] && (s + right)[|s| + n] == right[n] && right[n] in right;
    }
  }

  lemma ParsePadded(left: string, n: nat, right: string)
    requires forall c | c in left + right :: IsSpace(c)
    ensures ParseInt(left + Decimal(n) + right) == Some(n)
  {
    DecimalDigits(n);
    var s := Decimal(n);
    DigitIsNotSpace(s[0]);
    forall c | c in left || c in right
      ensures IsSpace(c)
    {
      assert c in left + right;
    }
    StripLeftSpaces(left, s + right);
    assert left + s + right == left + (s + right);
    assert (s + right)[0] == s[0];
    StripRightSpaces(s, right);
    ParseDecimal(n);
    assert StripLeft(s) == s;
  }

  /** Digits at both ends, and no two underscores side by side. */
  ghost predicate IsGrouped(s: string) {
    && s != "" && IsDigit(s[0]) && IsDigit(s[|s| - 1])
    && (forall i | 0 <= i < |s| :: IsDigit(s[i]) || s[i] == '_')
    && forall i | 0 < i < |s| :: IsDigit(s[i - 1]) || IsDigit(s[i])
  }

  lemma GroupedWithDigit(s: string)
    requires |s| > 1 && IsDigit(s[|s| - 1]) && s[|s| - 2] != '_'
    ensures IsGrouped(s) <==> IsGrouped(s[..|s| - 1])
  {
    var rest := s[..|s| - 1];
    assert forall i | 0 <= i < |rest| :: rest[i] == s[i];
    if IsGrouped(rest) {
      assert forall i | 0 <= i < |s| :: IsDigit(s[i]) || s[i] == '_';
    }
  }

  lemma GroupedWithUnderscore(s: string)
    requires |s| > 1 && IsDigit(s[|s| - 1]) && s[|s| - 2] == '_'
    ensures IsGrouped(s) <==> IsGrouped(s[..|s| - 2])
  {
    var rest := s[..|s| - 2];
    assert forall i | 0 <= i < |rest| :: rest[i] == s[i];
    if IsGrouped(s) {
      assert rest != "" && IsDigit(s[|s| - 3]) && rest[|rest| - 1] == s[|s| - 3];
    }
    if IsGrouped(rest) {
      assert forall i | 0 <= i < |s| :: IsDigit(s[i]) || s[i] == '_';
    }
  }

  /** Exactly these texts are read as a number. */
  lemma {:induction false} DigitsExactly(s: string)
    ensures DigitsValue(s).Some? <==> IsGrouped(s)
  {
    if |s| > 1 && IsDigit(s[|s| - 1]) {
      var rest := s[..|s| - 1];
      if s[|s| - 2] != '_' {
        GroupedWithDigit(s);
        DigitsExactly(rest);
      } else {
        GroupedWithUnderscore(s);
        assert rest[..|rest| - 1] == s[..|s| - 2];
        DigitsExactly(s[..|s| - 2]);
      }
    }
  }

  lemma {:induction false} UnderscoreIsIgnored(a: string, b: string)
    requires a != "" && b != "" && a[|a| - 1] != '_' && forall i | 0 <= i < |b| :: IsDigit(b[i])
    ensures DigitsValue(a + "_" + b) == DigitsValue(a + b)
    decreases |b|
  {
    var n := |b| - 1;
    var long, short := a + "_" + b, a + b;
    assert long[|long| - 1] == short[|short| - 1] == b[n];
    assert long[..|long| - 1] == a + "_" + b[..n] && short[..|short| - 1] == a + b[..n];
    if n == 0 {
      assert a + "_" + b[..n] == a + "_" && (a + "_")[..|a|] == a == a + b[..n];
    } else {
      UnderscoreIsIgnored(a, b[..n]);
      assert IsDigit(b[n - 1]) && (a + "_" + b[..n])[|a| + n] == (a + b[..n])[|a| + n - 1] == b[n - 1];
    }
  }

  // ---- tags ------------------------------------------------------------------------------

  function SlicePrefix(key: string): string {
    "state-" + key + "-s"
  }

  function StateTag(key: string, n: nat): string {
    SlicePrefix(key) + Decimal(n)
  }

  function TurboPrefix(key: string): string {
    "state-" + key + "-turbo-"
  }

  function ProductTag(key: string): string {
    "state-" + key + "-final-product"
  }

  function AfterDashFrom(s: string, i: nat): string
    requires i <= |s|
  {
    if OccursAt(s, "-s", i) then s[i + 2..]
    else if i == 0 then s
    else AfterDashFrom(s, i - 1)
  }

  /** What follows the last "-s", or the whole string: `tag.rsplit("-s", 1)[-1]`. */
  function AfterLastDash(s: string): string {
    AfterDashFrom(s, |s|)
  }

  /** gc_state's `_slice_num`. */
  function SliceNum(tag: string): int {
    match ParseInt(AfterLastDash(tag))
    case Some(n) => n
    case None => -1
  }

  lemma {:induction false} DashIsFound(head: string, digits: string, i: nat)
    requires forall j | 0 <= j < |digits| :: IsDigit(digits[j])
    requires |head| <= i <= |head| + 2 + |digits|
    ensures AfterDashFrom(head + "-s" + digits, i) == digits
    decreases i
  {
    var s := head + "-s" + digits;
    if i == |head| {
      assert s[i..i + 2] == "-s" && s[i + 2..] == digits;
    } else {
      if i < |s| {
        assert s[i] == if i == |head| + 1 then 's' else digits[i - |head| - 2];
        assert i + 2 <= |s| ==> s[i..i + 2][0] == s[i] != "-s"[0];
      }
      DashIsFound(head, digits, i - 1);
    }
  }

  /** Reading the number of a slice tag gives the slice back, whatever the campaign's key. */
  lemma SliceNumOfStateTag(key: string, n: nat)
    ensures SliceNum(StateTag(key, n)) == n
  {
    DecimalDigits(n);
    var head := "state-" + key;
    var tag := head + "-s" + Decimal(n);
    assert tag == StateTag(key, n);
    DashIsFound(head, Decimal(n), |tag|);
    ParseDecimal(n);
  }

  /** A tag without a number counts as older than every slice. */
  lemma WithoutNumberIsOldest(key: string, n: nat, tag: string)
    requires ParseInt(AfterLastDash(tag)) == None
    ensures SliceNum(tag) == -1 < SliceNum(StateTag(key, n))
  {
    SliceNumOfStateTag(key, n);
  }

  lemma StateTagsDiffer(key: string, m: nat, n: nat)
    requires m != n
    ensures StateTag(key, m) != StateTag(key, n)
  {
    SliceNumOfStateTag(key, m);
    SliceNumOfStateTag(key, n);
  }

  lemma PrefixChar(s: string, prefix: string, k: nat)
    requires k < |prefix|
    ensures StartsWith(s, prefix) ==> k < |s| && s[k] == prefix[k]
  {
    if StartsWith(s, prefix) {
      assert s[..|prefix|][k] == s[k];
    }
  }

  /** A slice tag is neither a turbo tag nor the product tag. */
  lemma SliceTagIsApart(key: string, n: nat)
    ensures !StartsWith(StateTag(key, n), TurboPrefix(key)) && StateTag(key, n) != ProductTag(key)
    ensures StartsWith(StateTag(key, n), SlicePrefix(key))
  {
    var at := |"state-" + key| + 1;
    assert StateTag(key, n)[at] == 's';
    assert TurboPrefix(key)[at] == 't' && ProductTag(key)[at] == 'f';
    PrefixChar(StateTag(key, n), TurboPrefix(key), at);
  }

  /** Nor does a collection take the product tag for one of either. */
  lemma ProductTagIsApart(key: string)
    ensures ProductTag(key) == "state-" + key + "-final-product"
    ensures !StartsWith(ProductTag(key), SlicePrefix(key)) && !StartsWith(ProductTag(key), TurboPrefix(key))
  {
    var at := |"state-" + key| + 1;
    assert ProductTag(key)[at] == 'f' && SlicePrefix(key)[at] == 's' && TurboPrefix(key)[at] == 't';
    PrefixChar(ProductTag(key), SlicePrefix(key), at);
    PrefixChar(ProductTag(key), TurboPrefix(key), at);
  }

  // ---- the order of slice tags as names --------------------------------------------------

  /** The number that the first k digits of n make. */
  function Leading(n: nat, k: nat): nat {
    if n < 10 || |Decimal(n)| <= k then n else Leading(n / 10, k)
  }

  lemma {:induction false} LeadingDigits(n: nat, k: nat)
    requires k >= 1
    ensures Decimal(Leading(n, k)) == Decimal(n)[..Min(k, |Decimal(n)|)]
  {
    if n < 10 || |Decimal(n)| <= k {
      assert Decimal(n)[..|Decimal(n)|] == Decimal(n);
    } else {
      LeadingDigits(n / 10, k);
      var front := Decimal(n / 10);
      assert Decimal(n)[..|front|] == front;
      assert Decimal(n)[..k] == front[..k];
    }
  }

  lemma {:induction false} LengthGrows(m: nat, n: nat)
    requires m <= n
    ensures |Decimal(m)| <= |Decimal(n)|
  {
    if m >= 10 {
      LengthGrows(m / 10, n / 10);
    }
  }

  lemma DecimalInjective(m: nat, n: nat)
    requires Decimal(m) == Decimal(n)
    ensures m == n
  {
    DecimalDigits(m);
    DecimalDigits(n);
  }

  lemma {:induction false} BeforeBySuffix(head: string, a: string, b: string)
    ensures Before(head + a, head + b) <==> Before(a, b)
  {
    if head == "" {
      assert head + a == a && head + b == b;
    } else {
      BeforeBySuffix(head[1..], a, b);
      assert (head + a)[1..] == head[1..] + a && (head + b)[1..] == head[1..] + b;
    }
  }

  /** Between heads of one length the tails matter only when the heads are the same. */
  lemma {:induction false} BeforeByHead(a: string, b: string, tail: string, tail': string)
    requires |a| == |b| && a != b
    ensures Before(a + tail, b + tail') <==> Before(a, b)
  {
    if a[0] == b[0] {
      assert a == [a[0]] + a[1..] && b == [b[0]] + b[1..];
      BeforeByHead(a[1..], b[1..], tail, tail');
      assert (a + tail)[1..] == a[1..] + tail && (b + tail')[1..] == b[1..] + tail';
    }
  }

  lemma BeforeOneChar(c: char, d: char)
    ensures Before([c], [d]) <==> c < d
  {
    assert [c][1..] == "" && [d][1..] == "";
  }

  /** Numbers of as many digits are ordered by their names as by their values. */
  lemma {:induction false} OrderOfSameLength(m: nat, n: nat)
    requires |Decimal(m)| == |Decimal(n)|
    ensures Before(Decimal(m), Decimal(n)) <==> m < n
  {
    if |Decimal(m)| == 1 {
      DecimalDigits(m / 10);
      DecimalDigits(n / 10);
      BeforeOneChar(Decimal(m)[0], Decimal(n)[0]);
    } else {
      var a, b := Decimal(m / 10), Decimal(n / 10);
      OrderOfSameLength(m / 10, n / 10);
      if m / 10 == n / 10 {
        BeforeBySuffix(a, Decimal(m)[|a|..], Decimal(n)[|a|..]);
        BeforeOneChar(Decimal(m)[|a|], Decimal(n)[|a|]);
      } else {
        if a == b {
          DecimalInjective(m / 10, n / 10);
        }
        BeforeByHead(a, b, Decimal(m)[|a|..], Decimal(n)[|a|..]);
      }
    }
  }

  lemma {:induction false} LongerIsNotBefore(a: string, tail: string)
    ensures !Before(a + tail, a)
  {
    if a != "" {
      assert (a + tail)[1..] == a[1..] + tail;
      LongerIsNotBefore(a[1..], tail);
    }
  }

  lemma LaterDigitsFirst(m: nat, n: nat)
    requires m < n
    ensures Before(Decimal(n), Decimal(m)) <==> Leading(n, |Decimal(m)|) < m
  {
    DecimalDigits(m);
    LengthGrows(m, n);
    var a, k := Decimal(m), |Decimal(m)|;
    var q := Leading(n, k);
    LeadingDigits(n, k);
    var b, tail := Decimal(q), Decimal(n)[k..];
    assert Decimal(n) == b + tail && a == a + "";
    OrderOfSameLength(q, m);
    if b == a {
      DecimalInjective(q, m);
      LongerIsNotBefore(a, tail);
    } else {
      BeforeByHead(b, a, tail, "");
    }
  }

  /** A newer slice comes before an older one, by name, exactly when its leading digits, as many
      as the older has, make a smaller number. */
  lemma NameOrder(key: string, m: nat, n: nat)
    requires m < n
    ensures Before(StateTag(key, n), StateTag(key, m)) <==> Leading(n, |Decimal(m)|) < m
  {
    DecimalDigits(m);
    BeforeBySuffix(SlicePrefix(key), Decimal(n), Decimal(m));
    LaterDigitsFirst(m, n);
  }

  /** Never between slices of as many digits. */
  lemma SameDigitsKeepOrder(key: string, m: nat, n: nat)
    requires m < n && |Decimal(m)| == |Decimal(n)|
    ensures Before(StateTag(key, m), StateTag(key, n))
  {
    BeforeBySuffix(SlicePrefix(key), Decimal(m), Decimal(n));
    OrderOfSameLength(m, n);
  }

  /** Below a hundred: when the older has one digit, the newer two, and its first is smaller. */
  lemma LeadingBelowHundred(m: nat, n: nat)
    requires m < n < 100
    ensures Leading(n, |Decimal(m)|) < m <==> m < 10 <= n && n / 10 < m
  {
    assert |Decimal(n / 10)| == 1 && |Decimal(m / 10)| == 1;
  }
}
