/**
 * The email format check both handlers apply, the regular expression
 * `^[^\s@]+@[^\s@]+\.[^\s@]+$`, stated twice: as the language the expression
 * accepts, and as a plain check (one `@`, no whitespace, a non-empty local
 * part, a domain with a `.` that is neither its first nor its last character).
 */
module Email {
  import opened Json
  import opened Text

  /**
   * JavaScript's `\s`: the ECMAScript WhiteSpace and LineTerminator code
   * points (tab, line feed, vertical tab, form feed, carriage return, the
   * space separators of Unicode category Zs, U+2028, U+2029 and U+FEFF).
   */
  predicate IsWhitespace(c: char)
  {
    var n := c as int;
    || 0x09 <= n <= 0x0D
    || n == 0x20 || n == 0xA0 || n == 0x1680
    || 0x2000 <= n <= 0x200A
    || n == 0x2028 || n == 0x2029 || n == 0x202F || n == 0x205F
    || n == 0x3000 || n == 0xFEFF
  }

  /** Printable ASCII characters other than the space are not whitespace. */
  lemma PrintableIsNotWhitespace(c: char)
    requires '!' <= c <= '~'
    ensures !IsWhitespace(c)
  {
  }

  /** A character of the class `[^\s@]`. */
  predicate Plain(c: char)
  {
    !IsWhitespace(c) && c != '@'
  }

  /**
   * The language of `^[^\s@]+@[^\s@]+\.[^\s@]+$`: the string splits as
   * `local @ host . tld` at positions `i` (the `@`) and `j` (the `.`), with all
   * three parts non-empty and every character other than the `@` in `[^\s@]`.
   */
  ghost predicate MatchesPattern(s: string)
  {
    exists i: nat, j: nat | 0 < i && i + 1 < j && j + 1 < |s| ::
      && s[i] == '@'
      && s[j] == '.'
      && forall k | 0 <= k < |s| && k != i :: Plain(s[k])
  }

  /** Some `.` of `domain` has a character before it and one after it. */
  predicate HasInnerDot(domain: string)
  {
    |domain| >= 2 && '.' in domain[1..|domain| - 1]
  }

  /** The format check `emailRegex.test(email)` as a plain check on the string. */
  predicate IsValidEmail(s: string)
  {
    var at := Find(s, '@');
    && 0 < at
    && '@' !in s[at + 1..]
    && (forall k | 0 <= k < |s| :: !IsWhitespace(s[k]))
    && HasInnerDot(s[at + 1..])
  }

  /** The format check applied to a body property; only strings are checked. */
  predicate Accepted(v: Value)
  {
    v.Str? && IsValidEmail(v.s)
  }

  /** Every string the plain check accepts matches the regular expression. */
  lemma {:induction false} ValidEmailMatches(s: string)
    requires IsValidEmail(s)
    ensures MatchesPattern(s)
  {
    var i := Find(s, '@');
    var domain := s[i + 1..];
    var m :| 0 <= m < |domain| - 2 && domain[1..|domain| - 1][m] == '.';
    var j := i + 2 + m;
    assert s[j] == '.';
    forall k | 0 <= k < |s| && k != i
      ensures Plain(s[k])
    {
      if k < i {
        assert s[k] == s[..i][k];
      } else {
        assert s[k] == domain[k - i - 1];
      }
    }
  }

  /** Every string the regular expression matches passes the plain check. */
  lemma {:induction false} MatchesAreValid(s: string)
    requires MatchesPattern(s)
    ensures IsValidEmail(s)
  {
    var i: nat, j: nat :| 0 < i && i + 1 < j && j + 1 < |s|
      && s[i] == '@' && s[j] == '.'
      && forall k | 0 <= k < |s| && k != i :: Plain(s[k]);
    OnlyAtIsFirst(s, i);
    var domain := s[i + 1..];
    forall k | 0 <= k < |domain|
      ensures domain[k] != '@'
    {
      assert domain[k] == s[i + 1 + k];
    }
    forall k | 0 <= k < |s|
      ensures !IsWhitespace(s[k])
    {
      if k == i {
        PrintableIsNotWhitespace(s[k]);
      }
    }
    assert domain[1..|domain| - 1][j - i - 2] == '.';
  }

  /** When position `i` holds the only `@` of `s`, `Find` locates it. */
  lemma {:induction false} OnlyAtIsFirst(s: string, i: nat)
    requires i < |s| && s[i] == '@'
    requires forall k | 0 <= k < |s| && k != i :: Plain(s[k])
    ensures Find(s, '@') == i
  {
    var at := Find(s, '@');
    assert '@' in s;
    assert !Plain(s[at]);
  }

  /** The plain check accepts exactly the strings the regular expression matches. */
  lemma {:induction false} ValidEmailIsPattern(s: string)
    ensures IsValidEmail(s) <==> MatchesPattern(s)
  {
    if IsValidEmail(s) {
      ValidEmailMatches(s);
    }
    if MatchesPattern(s) {
      MatchesAreValid(s);
    }
  }

  /** A valid address has exactly one `@`. */
  lemma {:induction false} ValidEmailHasOneAt(s: string)
    requires IsValidEmail(s)
    ensures multiset(s)['@'] == 1
  {
    var i := Find(s, '@');
    assert s == s[..i] + [s[i]] + s[i + 1..];
    assert multiset(s) == multiset(s[..i]) + multiset{'@'} + multiset(s[i + 1..]);
  }

  /** A string without `@` is rejected. */
  lemma {:induction false} NoAtRejected(s: string)
    requires '@' !in s
    ensures !IsValidEmail(s)
  {
  }

  /** A string without a `.` after its `@` is rejected. */
  lemma {:induction false} NoDotRejected(local: string, domain: string)
    requires '.' !in domain
    ensures !IsValidEmail(local + "@" + domain)
  {
    var s := local + "@" + domain;
    if '@' !in local {
      FindAfterPrefix(local, '@', domain);
      assert s[|local| + 1..] == domain;
      if |domain| >= 2 {
        var inner := domain[1..|domain| - 1];
        forall k | 0 <= k < |inner|
          ensures inner[k] != '.'
        {
          assert inner[k] == domain[k + 1];
        }
      }
    } else {
      var i := Find(s, '@');
      assert s[..|local|] == local;
      assert i < |local|;
      assert s[i + 1..][|local| - i - 1] == '@';
    }
  }

  /** A string starting with `@` is rejected: the local part is empty. */
  lemma {:induction false} EmptyLocalRejected(domain: string)
    ensures !IsValidEmail("@" + domain)
  {
    assert Find("@" + domain, '@') == 0;
  }

  /** `local@domain` passes when both parts are free of `@` and whitespace and the domain has an inner dot. */
  lemma {:induction false} ValidFromParts(local: string, domain: string)
    requires |local| > 0 && '@' !in local && '@' !in domain
    requires forall k | 0 <= k < |local| :: !IsWhitespace(local[k])
    requires forall k | 0 <= k < |domain| :: !IsWhitespace(domain[k])
    requires HasInnerDot(domain)
    ensures IsValidEmail(local + "@" + domain)
  {
    var s := local + "@" + domain;
    FindAfterPrefix(local, '@', domain);
    assert s[|local| + 1..] == domain;
    forall k | 0 <= k < |s|
      ensures !IsWhitespace(s[k])
    {
      if k < |local| {
        assert s[k] == local[k];
      } else if k > |local| {
        assert s[k] == domain[k - |local| - 1];
      }
    }
  }

  /** A string of printable ASCII characters other than the space has no whitespace. */
  lemma PrintableHasNoWhitespace(s: string)
    requires forall k | 0 <= k < |s| :: '!' <= s[k] <= '~'
    ensures forall k | 0 <= k < |s| :: !IsWhitespace(s[k])
  {
    forall k | 0 <= k < |s|
      ensures !IsWhitespace(s[k])
    {
      PrintableIsNotWhitespace(s[k]);
    }
  }

  /** The parts of an ordinary address such as `jane@example.com` meet the requirements of `ValidFromParts`. */
  lemma ExampleParts()
    ensures forall k | 0 <= k < |"jane"| :: !IsWhitespace("jane"[k])
    ensures forall k | 0 <= k < |"example.com"| :: !IsWhitespace("example.com"[k])
    ensures HasInnerDot("example.com")
  {
    PrintableHasNoWhitespace("jane");
    PrintableHasNoWhitespace("example.com");
    assert "example.com"[1..10][6] == '.';
  }

  /** An ordinary address such as `jane@example.com` passes the check. */
  lemma ExampleAccepted()
    ensures IsValidEmail("jane@example.com")
  {
    ExampleParts();
    ValidFromParts("jane", "example.com");
    assert "jane" + "@" + "example.com" == "jane@example.com";
  }
}
