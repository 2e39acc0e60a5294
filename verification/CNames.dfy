/** The names the emitter makes up: when two of them can coincide. */
module CNames {
  import opened CEmission
  import opened CMachine
  import opened Mir

  lemma DigitsDiffer(m: nat, n: nat)
    requires m < 10 && n < 10 && Digit(m) == Digit(n)
    ensures m == n
  {
  }

  lemma {:induction false} DecimalInjective(m: nat, n: nat)
    requires Decimal(m) == Decimal(n)
    ensures m == n
  {
    var s := Decimal(m);
    if m < 10 && n < 10 {
      DigitsDiffer(m, n);
    } else if m < 10 {
      assert false;
    } else if n < 10 {
      assert false;
    } else {
      assert s[..|s| - 1] == Decimal(m / 10) == Decimal(n / 10);
      assert s[|s| - 1] == Digit(m % 10) == Digit(n % 10);
      DecimalInjective(m / 10, n / 10);
      DigitsDiffer(m % 10, n % 10);
    }
  }

  /** SSA ids never collide. */
  lemma ValueNamesDistinct(v: ValueId, w: ValueId)
    ensures ValueName(v) == ValueName(w) <==> v == w
  {
    if ValueName(v) == ValueName(w) {
      assert ValueName(v)[3..] == Decimal(v) && ValueName(w)[3..] == Decimal(w);
      DecimalInjective(v, w);
    }
  }

  lemma ParamNamesDistinct(i: nat, j: nat)
    ensures ParamName(i) == ParamName(j) <==> i == j
  {
    if ParamName(i) == ParamName(j) {
      assert ParamName(i)[3..] == Decimal(i) && ParamName(j)[3..] == Decimal(j);
      DecimalInjective(i, j);
    }
  }

  /** Values, locals and parameters live in three name spaces. */
  lemma SpacesDisjoint(v: ValueId, x: string, i: nat)
    ensures ValueName(v) != LocalName(x) && ValueName(v) != ParamName(i) && LocalName(x) != ParamName(i)
  {
    assert ValueName(v)[1] == '_' && ValueName(v)[2] == 'v';
    assert ParamName(i)[1] == '_' && ParamName(i)[2] == 'p';
    assert LocalName(x)[1] == 'l';
  }

  // ----- identifiers

  predicate IdentChar(c: char) {
    'a' <= c <= 'z' || 'A' <= c <= 'Z' || '0' <= c <= '9' || c == '_'
  }

  predicate Identifier(s: string) {
    forall k | 0 <= k < |s| :: IdentChar(s[k])
  }

  /** Identifiers joined by dots and by double colons; a single colon has no place. */
  predicate PathName(s: string) {
    if s == "" then true
    else if s[0] == ':' then |s| >= 2 && s[1] == ':' && PathName(s[2..])
    else (IdentChar(s[0]) || s[0] == '.') && PathName(s[1..])
  }

  lemma IdentifierFirst(c: char, s: string)
    ensures Identifier([c] + s) <==> IdentChar(c) && Identifier(s)
  {
    hide IdentChar;
    if Identifier([c] + s) {
      assert IdentChar(([c] + s)[0]);
      forall k | 0 <= k < |s|
        ensures IdentChar(s[k])
      {
        assert ([c] + s)[k + 1] == s[k];
      }
    }
  }

  lemma {:induction false} ReplacedIdentifier(s: string)
    ensures Identifier(ReplaceDots(ReplacePaths(s))) <==> PathName(s)
    decreases |s|
  {
    if |s| >= 2 && s[0] == ':' && s[1] == ':' {
      ReplacedIdentifier(s[2..]);
      ReplacedFirst('_', ReplacePaths(s[2..]));
    } else if s != "" {
      ReplacedIdentifier(s[1..]);
      ReplacedFirst(s[0], ReplacePaths(s[1..]));
    }
  }

  lemma ReplacedFirst(c: char, rest: string)
    ensures Identifier(ReplaceDots([c] + rest)) <==> (c == '.' || IdentChar(c)) && Identifier(ReplaceDots(rest))
  {
    assert ([c] + rest)[1..] == rest;
    IdentifierFirst(if c == '.' then '_' else c, ReplaceDots(rest));
    hide Identifier;
  }

  lemma Prefixed(prefix: string, s: string)
    requires Identifier(prefix)
    ensures Identifier(prefix + s) <==> Identifier(s)
  {
    hide IdentChar;
    if Identifier(prefix + s) {
      forall k | 0 <= k < |s|
        ensures IdentChar(s[k])
      {
        assert (prefix + s)[|prefix| + k] == s[k];
      }
    }
  }

  /** The names of functions and locals come out as C identifiers exactly when they are paths. */
  lemma MangledIdentifiers(x: string)
    ensures Identifier(MangleName(x)) <==> PathName(x)
    ensures Identifier(LocalName(x)) <==> PathName(x)
  {
    ReplacedIdentifier(x);
    Prefixed("agam_", ReplaceDots(ReplacePaths(x)));
    Prefixed("_local_", ReplaceDots(ReplacePaths(x)));
    hide ReplaceDots, ReplacePaths;
  }

  // ----- mangling

  /** Mangling keeps the locals apart. */
  ghost predicate LocalsApart(names: set<string>) {
    forall x, y | x in names && y in names :: LocalName(x) == LocalName(y) ==> x == y
  }

  predicate NoPath(x: string) {
    forall k | 0 <= k < |x| - 1 :: x[k] != ':' || x[k + 1] != ':'
  }

  /** Nothing in the name is replaced, and nothing looks like a replacement. */
  predicate Free(x: string) {
    '_' !in x && '.' !in x && NoPath(x)
  }

  function Mangled(x: string): string {
    ReplaceDots(ReplacePaths(x))
  }

  lemma {:induction false} DotsAppend(a: string, b: string)
    ensures ReplaceDots(a + b) == ReplaceDots(a) + ReplaceDots(b)
  {
    if a == "" {
      assert a + b == b;
    } else {
      assert (a + b)[1..] == a[1..] + b;
      DotsAppend(a[1..], b);
    }
  }

  /** A character other than ':' keeps what is left of it apart from what is right of it. */
  lemma {:induction false} PathsAround(a: string, c: char, b: string)
    requires c != ':'
    ensures ReplacePaths(a + [c] + b) == ReplacePaths(a) + [c] + ReplacePaths(b)
    decreases |a|
  {
    var s := a + [c] + b;
    if a == "" {
      assert s == [c] + b && s[1..] == b;
    } else if |a| >= 2 && a[0] == ':' && a[1] == ':' {
      assert s[2..] == a[2..] + [c] + b;
      PathsAround(a[2..], c, b);
    } else {
      assert s[1..] == a[1..] + [c] + b;
      PathsAround(a[1..], c, b);
    }
  }

  /** `_` and `.` are interchangeable. */
  lemma DotsAreUnderscores(a: string, b: string)
    ensures Mangled(a + "." + b) == Mangled(a + "_" + b)
  {
    PathsAround(a, '.', b);
    PathsAround(a, '_', b);
    var p, q := ReplacePaths(a), ReplacePaths(b);
    DotsAppend(p + ".", q);
    DotsAppend(p + "_", q);
    DotsAppend(p, ".");
    DotsAppend(p, "_");
    assert "."[1..] == "" && "_"[1..] == "";
    assert ReplaceDots(".") == "_" && ReplaceDots("_") == "_";
    hide ReplacePaths, ReplaceDots;
  }

  lemma {:induction false} PathsAfter(a: string, b: string)
    requires NoPath(a) && (a == "" || a[|a| - 1] != ':')
    ensures ReplacePaths(a + b) == a + ReplacePaths(b)
    decreases |a|
  {
    if a == "" {
      assert a + b == b;
    } else {
      assert (a + b)[1..] == a[1..] + b;
      assert a[0] == ':' && |a| >= 2 ==> a[1] != ':';
      PathsAfter(a[1..], b);
      assert a == [a[0]] + a[1..];
    }
  }

  /** The first path separator is interchangeable with `_`. */
  lemma PathsAreUnderscores(a: string, b: string)
    requires NoPath(a) && (a == "" || a[|a| - 1] != ':')
    ensures Mangled(a + "::" + b) == Mangled(a + "_" + b)
  {
    PathsAfter(a, "::" + b);
    PathsAfter(a, "_" + b);
    assert ("::" + b)[2..] == b && ("_" + b)[1..] == b;
    assert a + "::" + b == a + ("::" + b) && a + "_" + b == a + ("_" + b);
    hide ReplaceDots;
  }

  lemma FirstPath(x: string) returns (a: string, b: string)
    requires !NoPath(x)
    ensures x == a + "::" + b && NoPath(a) && (a == "" || a[|a| - 1] != ':')
  {
    var k := 0;
    while x[k] != ':' || x[k + 1] != ':'
      invariant 0 <= k < |x| - 1
      invariant forall j | 0 <= j < k :: x[j] != ':' || x[j + 1] != ':'
      invariant exists j :: k <= j < |x| - 1 && x[j] == ':' && x[j + 1] == ':'
      decreases |x| - k
    {
      k := k + 1;
    }
    a, b := x[..k], x[k + 2..];
  }

  /** A name that is not free has a partner. */
  lemma Partner(x: string) returns (y: string)
    requires !Free(x)
    ensures y != x && LocalName(y) == LocalName(x)
  {
    if '_' in x {
      var k :| 0 <= k < |x| && x[k] == '_';
      y := x[..k] + "." + x[k + 1..];
      assert x == x[..k] + "_" + x[k + 1..];
      assert y[k] == '.';
      DotsAreUnderscores(x[..k], x[k + 1..]);
    } else if '.' in x {
      var k :| 0 <= k < |x| && x[k] == '.';
      y := x[..k] + "_" + x[k + 1..];
      assert x == x[..k] + "." + x[k + 1..];
      assert y[k] == '_';
      DotsAreUnderscores(x[..k], x[k + 1..]);
    } else {
      var a, b := FirstPath(x);
      y := a + "_" + b;
      assert |y| == |x| - 1;
      PathsAreUnderscores(a, b);
    }
    hide ReplaceDots, ReplacePaths;
  }

  lemma {:induction false} NoDotsUnchanged(x: string)
    requires '.' !in x
    ensures ReplaceDots(x) == x
  {
    if x != "" {
      assert x[0] in x && forall c | c in x[1..] :: c in x;
      NoDotsUnchanged(x[1..]);
    }
  }

  lemma NoPathUnchanged(x: string)
    requires NoPath(x)
    ensures ReplacePaths(x) == x
  {
    if x == "" {
    } else if x[|x| - 1] == ':' {
      var n := |x| - 1;
      PathsAfter(x[..n], ":");
      assert x == x[..n] + ":" && ":"[1..] == "";
      assert ReplacePaths(":") == ":";
    } else {
      PathsAfter(x, "");
      assert x + "" == x;
    }
  }

  /** Whatever is replaced leaves an underscore. */
  lemma ReplacedLeavesUnderscore(x: string)
    requires '.' in x || !NoPath(x)
    ensures '_' in Mangled(x)
  {
    if !NoPath(x) {
      var a, b := FirstPath(x);
      PathsAreUnderscores(a, b);
      PathsAround(a, '_', b);
      DotsAppend(ReplacePaths(a) + "_", ReplacePaths(b));
      DotsAppend(ReplacePaths(a), "_");
      assert "_"[1..] == "" && ReplaceDots("_") == "_";
    } else {
      NoPathUnchanged(x);
      var k :| 0 <= k < |x| && x[k] == '.';
      assert x == x[..k] + "." + x[k + 1..];
      DotsAppend(x[..k] + ".", x[k + 1..]);
      DotsAppend(x[..k], ".");
      assert "."[1..] == "" && ReplaceDots(".") == "_";
    }
    hide ReplaceDots, ReplacePaths;
  }

  lemma FreeUnchanged(x: string)
    requires '.' !in x && NoPath(x)
    ensures Mangled(x) == x
  {
    NoPathUnchanged(x);
    NoDotsUnchanged(x);
  }

  lemma SameMangled(x: string, y: string)
    ensures LocalName(x) == LocalName(y) <==> Mangled(x) == Mangled(y)
  {
    assert LocalName(x)[7..] == Mangled(x) && LocalName(y)[7..] == Mangled(y);
  }

  /** A local can share its C variable with another name exactly when its own name is not free. */
  lemma SharedExactly(x: string)
    ensures (exists y :: y != x && LocalName(y) == LocalName(x)) <==> !Free(x)
  {
    hide LocalName, Mangled;
    if Free(x) {
      FreeUnchanged(x);
      forall y | LocalName(y) == LocalName(x)
        ensures y == x
      {
        SameMangled(x, y);
        if '.' in y || !NoPath(y) {
          ReplacedLeavesUnderscore(y);
        } else {
          FreeUnchanged(y);
        }
      }
    } else {
      var y := Partner(x);
    }
  }

  /** A name can be added to every set of names that mangling keeps apart exactly when it is free. */
  lemma ApartExactly(x: string)
    ensures (forall names :: LocalsApart(names) ==> LocalsApart(names + {x})) <==> Free(x)
  {
    hide LocalName, Free;
    SharedExactly(x);
    if !Free(x) {
      var y := Partner(x);
      assert LocalsApart({y}) && !LocalsApart({y} + {x});
    }
  }

  /** So one name at most may hold a separator or an underscore. */
  lemma AllButOneFree(names: set<string>, odd: string)
    requires forall x | x in names :: x == odd || Free(x)
    ensures LocalsApart(names)
  {
    hide LocalName, Free;
    forall x | x in names && x != odd
      ensures forall y :: LocalName(y) == LocalName(x) ==> y == x
    {
      SharedExactly(x);
    }
  }
}
