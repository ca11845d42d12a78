/** The demangled-name splitter of cp/tables.py.

    `getClassName` drops the argument list, then walks the name from the right
    with a template-depth counter, jumping over operator names, until it meets a
    colon at depth 0. Strings and subscripts follow Python: a negative subscript
    counts from the end, one below -len(name) raises IndexError, and a negative
    slice bound is clamped at the front. */
module ClassNames {
  import opened Options

  datatype Outcome = NoClass | Class(name: string) | IndexError

  // ---------------------------------------------------------------- Python strings

  /** name[index], for an index that does not raise. */
  function CharAt(s: string, index: int): char
    requires -|s| <= index < |s|
  {
    if index < 0 then s[|s| + index] else s[index]
  }

  /** name[:index] */
  function Before(s: string, index: int): string {
    if index >= |s| then s
    else if index >= 0 then s[..index]
    else if index >= -|s| then s[..|s| + index]
    else ""
  }

  predicate EndsWith(s: string, suffix: string) {
    |suffix| <= |s| && forall i :: 0 <= i < |suffix| ==> s[|s| - |suffix| + i] == suffix[i]
  }

  predicate At(s: string, part: string, i: int) {
    0 <= i <= |s| - |part| && s[i..i + |part|] == part
  }

  predicate Contains(s: string, part: string) {
    exists i :: 0 <= i <= |s| && At(s, part, i)
  }

  /** name[:name.rindex("(")] when there is a parenthesis, name otherwise. */
  function StripArguments(s: string): (r: string)
    ensures r <= s
    ensures '(' !in s ==> r == s
    ensures '(' in s ==> |r| < |s| && s[|r|] == '(' && forall k :: |r| < k < |s| ==> s[k] != '('
  {
    if s == [] then s
    else if s[|s| - 1] == '(' then s[..|s| - 1]
    else
      var r := StripArguments(s[..|s| - 1]);
      if '(' in s then r else s
  }

  // ---------------------------------------------------------------- the scan

  const SHIFT_IN := "operator>>"
  const SHIFT_OUT := "operator<<"
  const GREATER := "operator>"
  const LESS := "operator<"

  /** How far the scan jumps when the text left of it is `chopped`: 0 for no jump. */
  function Jump(chopped: string): (j: nat)
    ensures j <= |chopped|
    ensures j == 0 || j == 9 || j == 10
  {
    if EndsWith(chopped, SHIFT_IN) || EndsWith(chopped, SHIFT_OUT) then 10
    else if EndsWith(chopped, GREATER) || EndsWith(chopped, LESS) then 9
    else 0
  }

  function Bracket(c: char): int {
    if c == '>' then 1 else if c == '<' then -1 else 0
  }

  /** The index at which the loop stops, None when a subscript raises first. */
  function Exit(s: string, index: int, depth: int): Option<int>
    requires index < |s|
    decreases index + |s| + 1
  {
    if index < -|s| then None
    else if CharAt(s, index) == ':' && depth == 0 then Some(index)
    else
      var j := Jump(Before(s, index));
      if j > 0 then Exit(s, index - j, depth)
      else Exit(s, index - 1, depth + Bracket(CharAt(s, index)))
  }

  function ClassName(name: string): Outcome {
    var s := StripArguments(name);
    if !Contains(s, "::") then NoClass
    else if |s| == 0 then NoClass
    else match Exit(s, |s| - 1, 0)
      case None => IndexError
      case Some(k) => Class(Before(s, k - 1))
  }

  // ---------------------------------------------------------------- brackets

  /** Closing minus opening brackets. */
  function Net(s: string): int {
    if s == [] then 0 else Net(s[..|s| - 1]) + Bracket(s[|s| - 1])
  }

  lemma {:induction false} NetConcat(a: string, b: string)
    ensures Net(a + b) == Net(a) + Net(b)
  {
    if b == [] {
      assert a + b == a;
    } else {
      NetConcat(a, b[..|b| - 1]);
      assert (a + b)[..|a + b| - 1] == a + b[..|b| - 1];
    }
  }

  lemma NetSplit(s: string, i: nat)
    requires i <= |s|
    ensures Net(s) == Net(s[..i]) + Net(s[i..])
  {
    hide Net;
    NetConcat(s[..i], s[i..]);
    assert s[..i] + s[i..] == s;
  }

  lemma NetAround(s: string, i: nat)
    requires i < |s| && s[i] == ':'
    ensures Net(s) == Net(s[..i]) + Net(s[i + 1..])
  {
    NetSplit(s, i + 1);
    assert s[..i + 1][..i] == s[..i];
  }

  /** As many `<` as `>`, and every colon strictly between brackets (read left to right). */
  ghost predicate WellBracketed(s: string) {
    && Net(s) == 0
    && forall i :: 0 <= i < |s| && s[i] == ':' ==> Net(s[..i]) != 0
  }

  /** No prefix of s, s included, ends in an operator name the scan would jump over. */
  ghost predicate NoOperator(s: string) {
    forall i :: 0 <= i <= |s| ==> Jump(s[..i]) == 0
  }

  /** The same for proper prefixes only: a bare trailing `operator<` is allowed. */
  ghost predicate NoJump(s: string) {
    forall i :: 0 <= i < |s| ==> Jump(s[..i]) == 0
  }

  /** No colon of s is met at depth 0 when s is walked from the right starting at depth d. */
  ghost predicate Clear(s: string, d: int) {
    s == [] ||
    var c := s[|s| - 1];
    (c == ':' ==> d != 0) && Clear(s[..|s| - 1], d + Bracket(c))
  }

  ghost predicate ColonsOffZero(s: string, d: int) {
    forall i :: 0 <= i < |s| && s[i] == ':' ==> d + Net(s[i + 1..]) != 0
  }

  lemma {:induction false} ClearMeansOffZero(s: string, d: int)
    ensures Clear(s, d) <==> ColonsOffZero(s, d)
  {
    if s != [] {
      var v, c := s[..|s| - 1], s[|s| - 1];
      ClearMeansOffZero(v, d + Bracket(c));
      assert s[|v| + 1..] == [];
      forall i | 0 <= i < |v|
        ensures Net(s[i + 1..]) == Bracket(c) + Net(v[i + 1..]) && s[i] == v[i]
      {
        assert s[i + 1..] == v[i + 1..] + [c];
        assert s[i + 1..][..|s[i + 1..]| - 1] == v[i + 1..];
      }
      if ColonsOffZero(s, d) {
        assert c == ':' ==> s[|v|] == ':';
        forall i | 0 <= i < |v| && v[i] == ':' ensures d + Bracket(c) + Net(v[i + 1..]) != 0 {
          assert s[i] == ':';
        }
      }
    }
  }

  lemma ClearMeansBracketed(s: string)
    requires Net(s) == 0
    ensures Clear(s, 0) <==> WellBracketed(s)
  {
    ClearMeansOffZero(s, 0);
    forall i | 0 <= i < |s| && s[i] == ':'
      ensures Net(s[i + 1..]) == -Net(s[..i])
    {
      NetAround(s, i);
    }
  }

  // ---------------------------------------------------------------- walking a stretch of the name

  lemma Position(s: string, p: nat, b: int)
    requires p < |s| && (b == 0 || b == -|s|)
    ensures Before(s, p + b) == s[..p] && CharAt(s, p + b) == s[p]
  {
  }

  lemma OneStep(s: string, p: nat, d: int, b: int)
    requires p < |s| && (b == 0 || b == -|s|)
    requires (s[p] == ':' && d == 0) || Jump(s[..p]) == 0
    ensures Exit(s, p + b, d) ==
            if s[p] == ':' && d == 0 then Some(p + b) else Exit(s, p - 1 + b, d + Bracket(s[p]))
  {
    hide Jump, Before, CharAt;
    Position(s, p, b);
  }

  /** Nothing in s[lo..hi] triggers a jump. */
  ghost predicate Quiet(s: string, lo: nat, hi: nat)
    requires hi <= |s|
  {
    forall i :: lo <= i < hi ==> Jump(s[..i]) == 0
  }

  /** A quiet stretch is walked character by character, in the first pass (b == 0)
      and in the pass after the index has gone negative (b == -|s|). */
  lemma {:induction false} Walk(s: string, lo: nat, hi: nat, d: int, b: int)
    requires lo <= hi <= |s| && (b == 0 || b == -|s|) && s != []
    requires Quiet(s, lo, hi)
    requires Clear(s[lo..hi], d)
    ensures Exit(s, hi - 1 + b, d) == Exit(s, lo - 1 + b, d + Net(s[lo..hi]))
    decreases hi - lo
  {
    hide Exit, Jump;
    if lo < hi {
      var p := hi - 1;
      assert s[lo..hi][..p - lo] == s[lo..p];
      OneStep(s, p, d, b);
      Walk(s, lo, p, d + Bracket(s[p]), b);
    }
  }

  lemma {:induction false} WalkStops(s: string, lo: nat, hi: nat, d: int, b: int)
    requires lo <= hi <= |s| && (b == 0 || b == -|s|) && s != []
    requires Quiet(s, lo, hi)
    requires !Clear(s[lo..hi], d)
    ensures exists k :: Exit(s, hi - 1 + b, d) == Some(k) && lo + b <= k < hi + b
    decreases hi - lo
  {
    hide Exit, Jump;
    var p := hi - 1;
    assert s[lo..hi][..p - lo] == s[lo..p];
    OneStep(s, p, d, b);
    if !(s[p] == ':' && d == 0) {
      WalkStops(s, lo, p, d + Bracket(s[p]), b);
    }
  }

  // ---------------------------------------------------------------- printed names

  function Qualified(c: string, f: string): string {
    c + "::" + f
  }

  /** The printer the splitter inverts: class path, member, and the argument list if there is one. */
  function Printed(c: string, f: string, arguments: Option<string>): string {
    match arguments
    case None => Qualified(c, f)
    case Some(a) => Qualified(c, f) + "(" + a
  }

  /** Names without an argument list carry no parenthesis; an argument list no inner one. */
  predicate Printable(c: string, f: string, arguments: Option<string>) {
    match arguments
    case None => '(' !in Qualified(c, f)
    case Some(a) => '(' !in a
  }

  lemma PrintedStrips(c: string, f: string, arguments: Option<string>)
    requires Printable(c, f, arguments)
    ensures StripArguments(Printed(c, f, arguments)) == Qualified(c, f)
    ensures Contains(Qualified(c, f), "::")
  {
    hide StripArguments, Qualified, Contains;
    HasSeparator(c, f);
    match arguments
    case None =>
    case Some(a) => CutsBefore(Qualified(c, f), a);
  }

  lemma Separated(s: string, i: nat)
    requires i + 2 <= |s| && s[i] == ':' && s[i + 1] == ':'
    ensures Contains(s, "::")
  {
    assert s[i..i + 2] == "::";
    assert At(s, "::", i);
  }

  lemma HasSeparator(c: string, f: string)
    ensures Contains(Qualified(c, f), "::")
  {
    hide Contains;
    Separated(Qualified(c, f), |c|);
  }

  lemma CutsBefore(q: string, a: string)
    requires '(' !in a
    ensures StripArguments(q + "(" + a) == q
  {
    hide StripArguments;
    var s := q + "(" + a;
    var r := StripArguments(s);
    assert s[|q|] == '(';
    assert forall k :: |q| < k < |s| ==> s[k] == a[k - |q| - 1];
    assert |r| == |q| && s[..|q|] == q;
  }

  lemma SuffixIsLocal(a: string, g: string, op: string)
    requires a != "" && a[|a| - 1] !in op
    ensures EndsWith(a + g, op) <==> EndsWith(g, op)
  {
    var s := a + g;
    if |g| < |op| <= |s| {
      var i := |op| - |g| - 1;
      assert s[|s| - |op| + i] == a[|a| - 1] && op[i] in op;
    }
  }

  /** Text up to a colon or a space does not change which jumps happen after it. */
  lemma JumpIsLocal(a: string, g: string)
    requires a != "" && a[|a| - 1] in ": "
    ensures Jump(a + g) == Jump(g)
  {
    SuffixIsLocal(a, g, SHIFT_IN);
    SuffixIsLocal(a, g, SHIFT_OUT);
    SuffixIsLocal(a, g, GREATER);
    SuffixIsLocal(a, g, LESS);
  }

  lemma MemberPrefix(c: string, f: string, i: nat)
    requires i <= |f|
    ensures Jump(Qualified(c, f)[..|c| + 2 + i]) == Jump(f[..i])
  {
    assert Qualified(c, f)[..|c| + 2 + i] == (c + "::") + f[..i];
    JumpIsLocal(c + "::", f[..i]);
  }

  lemma QuietMember(c: string, f: string, lo: nat, hi: nat)
    requires lo <= hi <= |f|
    requires forall i :: lo <= i < hi ==> Jump(f[..i]) == 0
    ensures Quiet(Qualified(c, f), |c| + 2 + lo, |c| + 2 + hi)
    ensures Qualified(c, f)[|c| + 2 + lo..|c| + 2 + hi] == f[lo..hi]
  {
    forall k | |c| + 2 + lo <= k < |c| + 2 + hi ensures Jump(Qualified(c, f)[..k]) == 0 {
      MemberPrefix(c, f, k - |c| - 2);
    }
  }

  /** The two ways the walk can leave the member: through its left end with the depth
      changed by `net`, or by stopping inside it. */
  ghost predicate Passes(c: string, f: string, d: int, b: int, net: int) {
    var q := Qualified(c, f);
    b <= 0 && Exit(q, |q| - 1 + b, d) == Exit(q, |c| + 1 + b, d + net)
  }

  ghost predicate StopsInside(c: string, f: string, d: int, b: int) {
    var q := Qualified(c, f);
    b <= 0 && exists k :: Exit(q, |q| - 1 + b, d) == Some(k) && |c| + 2 + b <= k < |q| + b
  }

  lemma PassPlain(c: string, f: string, d: int, b: int)
    requires NoJump(f) && (b == 0 || b == -|Qualified(c, f)|)
    ensures Clear(f, d) ==> Passes(c, f, d, b, Net(f))
    ensures !Clear(f, d) ==> StopsInside(c, f, d, b)
  {
    hide Exit, Jump, Net, Clear;
    var q := Qualified(c, f);
    QuietMember(c, f, 0, |f|);
    assert f[0..|f|] == f;
    if Clear(f, d) {
      Walk(q, |c| + 2, |q|, d, b);
    } else {
      WalkStops(q, |c| + 2, |q|, d, b);
    }
  }

  // ---------------------------------------------------------------- the class part

  /** Once the member has been left at a depth other than 0, the walk does not stop at the `::`
      that separates it from the class path: it crosses the class path or stops inside it. */
  lemma PassClass(c: string, f: string, d: int, b: int)
    requires NoOperator(c) && d != 0
    requires b == 0 || b == -|Qualified(c, f)|
    ensures var q, e := Qualified(c, f), Exit(Qualified(c, f), |c| + 1 + b, d);
            if Clear(c, d) then e == Exit(q, -1 + b, d + Net(c)) else e.Some? && b <= e.value < |c| + b
  {
    hide Exit, Jump, Net, Clear, NoOperator;
    var q := Qualified(c, f);
    assert q[..|c|] == c && q[..|c| + 1] == c + ":";
    QuietClass(c, f);
    OneStep(q, |c| + 1, d, b);
    OneStep(q, |c|, d, b);
    assert q[0..|c|] == c;
    if Clear(c, d) {
      Walk(q, 0, |c|, d, b);
    } else {
      WalkStops(q, 0, |c|, d, b);
    }
  }

  lemma QuietClass(c: string, f: string)
    requires NoOperator(c)
    ensures Quiet(Qualified(c, f), 0, |c|)
    ensures Jump(c) == 0 && Jump(c + ":") == 0
  {
    hide Jump;
    var q := Qualified(c, f);
    forall i | 0 <= i < |c| ensures Jump(q[..i]) == 0 {
      assert q[..i] == c[..i];
    }
    assert c[..|c|] == c;
    NoJumpAfter(c + ":");
  }

  /** A stop anywhere but at the second colon of the separator yields another class. */
  lemma OtherStop(c: string, f: string, k: int)
    requires var n := |Qualified(c, f)|;
             -n <= k < n && k != |c| + 1 && k != |c| + 1 - n && (k == -n ==> c != "")
    ensures Before(Qualified(c, f), k - 1) != c
  {
  }

  // ---------------------------------------------------------------- the round trip

  lemma ClassOfPrinted(c: string, f: string, arguments: Option<string>)
    requires Printable(c, f, arguments)
    ensures var q := Qualified(c, f);
            ClassName(Printed(c, f, arguments)) ==
            match Exit(q, |q| - 1, 0)
            case None => IndexError
            case Some(k) => Class(Before(q, k - 1))
  {
    hide Exit;
    PrintedStrips(c, f, arguments);
  }

  lemma Found(c: string, f: string, arguments: Option<string>)
    requires Printable(c, f, arguments)
    requires Passes(c, f, 0, 0, 0)
    ensures ClassName(Printed(c, f, arguments)) == Class(c)
    ensures Exit(Qualified(c, f), |Qualified(c, f)| - 1, 0) == Some(|c| + 1)
  {
    hide Exit, Jump, ClassName;
    ClassOfPrinted(c, f, arguments);
    var q := Qualified(c, f);
    assert q[|c| + 1] == ':' && q[..|c|] == c;
    OneStep(q, |c| + 1, 0, 0);
  }

  /** A walk that does not stop at the separator in its first pass does not stop there in its second. */
  lemma NeverAtSeparator(c: string, f: string, net: int)
    requires NoOperator(c) && Net(c) == 0
    requires StopsInside(c, f, 0, 0) || (net != 0 && Passes(c, f, 0, 0, net))
    requires StopsInside(c, f, net, -|Qualified(c, f)|) || Passes(c, f, net, -|Qualified(c, f)|, net)
    ensures var q, e := Qualified(c, f), Exit(Qualified(c, f), |Qualified(c, f)| - 1, 0);
            e.None? || (-|q| <= e.value < |q| && e.value != |c| + 1 && e.value != |c| + 1 - |q| &&
                        (e.value == -|q| ==> c != ""))
  {
    hide Exit, Jump, Net, NoOperator;
    var q := Qualified(c, f);
    var n := |q|;
    if !StopsInside(c, f, 0, 0) {
      PassClass(c, f, net, 0);
      if Exit(q, n - 1, 0) == Exit(q, -1, net) && !StopsInside(c, f, net, -n) {
        PassClass(c, f, net + net, -n);
        BelowFront(q, net + net);
      }
    }
  }

  lemma BelowFront(s: string, d: int)
    requires s != []
    ensures Exit(s, -1 - |s|, d) == None
  {
  }

  lemma NotFound(c: string, f: string, arguments: Option<string>, net: int)
    requires Printable(c, f, arguments)
    requires NoOperator(c) && Net(c) == 0
    requires StopsInside(c, f, 0, 0) || (net != 0 && Passes(c, f, 0, 0, net))
    requires StopsInside(c, f, net, -|Qualified(c, f)|) || Passes(c, f, net, -|Qualified(c, f)|, net)
    ensures ClassName(Printed(c, f, arguments)) != Class(c)
  {
    hide Exit, Jump, ClassName;
    ClassOfPrinted(c, f, arguments);
    NeverAtSeparator(c, f, net);
    var q := Qualified(c, f);
    var e := Exit(q, |q| - 1, 0);
    if e.Some? {
      OtherStop(c, f, e.value);
    }
  }

  /** The class of a printed member is recovered, whatever the class path, when the
      member's brackets balance and its colons lie between them. */
  lemma RoundTrip(c: string, f: string, arguments: Option<string>)
    requires Printable(c, f, arguments)
    requires NoJump(f) && WellBracketed(f)
    ensures ClassName(Printed(c, f, arguments)) == Class(c)
    ensures Exit(Qualified(c, f), |Qualified(c, f)| - 1, 0) == Some(|c| + 1)
  {
    hide Exit, Jump, Net, Clear;
    ClearMeansBracketed(f);
    PassPlain(c, f, 0, 0);
    Found(c, f, arguments);
  }

  /** For a balanced class path that is also the only case. */
  lemma RoundTripExactly(c: string, f: string, arguments: Option<string>)
    requires Printable(c, f, arguments)
    requires NoOperator(c) && Net(c) == 0 && NoJump(f)
    ensures ClassName(Printed(c, f, arguments)) == Class(c) <==> WellBracketed(f)
  {
    hide Exit, Jump, Net, Clear;
    if Net(f) == 0 {
      ClearMeansBracketed(f);
    }
    PassPlain(c, f, 0, 0);
    PassPlain(c, f, Net(f), -|Qualified(c, f)|);
    if WellBracketed(f) {
      Found(c, f, arguments);
    } else {
      NotFound(c, f, arguments, Net(f));
    }
  }

  // ---------------------------------------------------------------- operator members

  const SYMBOLS := {"<", "<<", ">", ">>"}

  /** p, then an operator name, then the character x, then s. */
  function OperatorMember(p: string, sym: string, x: char, s: string): string {
    p + "operator" + sym + [x] + s
  }

  /** The operator name is the only one in the member the scan recognises. */
  ghost predicate OneOperator(p: string, sym: string, x: char, s: string) {
    && sym in SYMBOLS
    && NoOperator(p)
    && forall i :: |p| + 8 + |sym| < i < |OperatorMember(p, sym, x, s)| ==>
         Jump(OperatorMember(p, sym, x, s)[..i]) == 0
  }

  lemma SecondLast(t: string, suffix: string)
    requires EndsWith(t, suffix) && |suffix| >= 2
    ensures t[|t| - 2] == suffix[|suffix| - 2]
  {
    assert t[|t| - |suffix| + (|suffix| - 2)] == suffix[|suffix| - 2];
  }

  lemma OperatorJumps(p: string, sym: string)
    requires sym in SYMBOLS
    ensures Jump(p + "operator" + sym) == 8 + |sym|
  {
    hide EndsWith;
    var name := "operator" + sym;
    var t := p + "operator" + sym;
    assert EndsWith(t, name) by { OwnSuffix(p, sym); }
    if |sym| == 2 {
      assert name == SHIFT_IN || name == SHIFT_OUT;
    } else {
      assert name == GREATER || name == LESS;
      assert t[|t| - 2] == 'r';
      assert !EndsWith(t, SHIFT_IN) by {
        if EndsWith(t, SHIFT_IN) { SecondLast(t, SHIFT_IN); }
      }
      assert !EndsWith(t, SHIFT_OUT) by {
        if EndsWith(t, SHIFT_OUT) { SecondLast(t, SHIFT_OUT); }
      }
    }
  }

  /** An operator name at the end of the text makes the scan jump by its length: the names for a
      jump of 9 and of 10 exclude each other. */
  lemma JumpExactly(t: string)
    ensures Jump(t) == 10 <==> EndsWith(t, SHIFT_IN) || EndsWith(t, SHIFT_OUT)
    ensures Jump(t) == 9 <==> EndsWith(t, GREATER) || EndsWith(t, LESS)
  {
    hide EndsWith;
    if EndsWith(t, GREATER) || EndsWith(t, LESS) {
      SecondLast(t, if EndsWith(t, GREATER) then GREATER else LESS);
      if EndsWith(t, SHIFT_IN) || EndsWith(t, SHIFT_OUT) {
        SecondLast(t, if EndsWith(t, SHIFT_IN) then SHIFT_IN else SHIFT_OUT);
      }
    }
  }

  lemma OwnSuffix(p: string, sym: string)
    ensures EndsWith(p + "operator" + sym, "operator" + sym)
  {
  }

  lemma JumpStep(s: string, p: nat, d: int, b: int)
    requires p < |s| && (b == 0 || b == -|s|)
    requires !(s[p] == ':' && d == 0) && Jump(s[..p]) > 0
    ensures Exit(s, p + b, d) == Exit(s, p - Jump(s[..p]) + b, d)
  {
    hide Jump, Before, CharAt;
    Position(s, p, b);
  }

  lemma {:induction false} ClearConcat(a: string, s: string, d: int)
    ensures Clear(a + s, d) <==> Clear(s, d) && Clear(a, d + Net(s))
  {
    if s == [] {
      assert a + s == a;
    } else {
      ClearConcat(a, s[..|s| - 1], d + Bracket(s[|s| - 1]));
      assert (a + s)[..|a + s| - 1] == a + s[..|s| - 1];
    }
  }

  /** The jump lands on the `o` of `operator`; the character x is never looked at, except
      that a colon at depth 0 stops the walk there. */
  lemma PassOperator(c: string, p: string, sym: string, x: char, s: string, d: int, b: int)
    requires OneOperator(p, sym, x, s)
    requires b == 0 || b == -|Qualified(c, OperatorMember(p, sym, x, s))|
    ensures var f := OperatorMember(p, sym, x, s);
            if Clear(p + s, d) && (x == ':' ==> d + Net(s) != 0)
            then Passes(c, f, d, b, Net(p) + Net(s)) else StopsInside(c, f, d, b)
  {
    hide Exit, Jump, Net, Clear;
    var f := OperatorMember(p, sym, x, s);
    var q := Qualified(c, f);
    var off := |c| + 2;
    var h := |p| + 8 + |sym|;
    ClearConcat(p, s, d);
    QuietMember(c, f, h + 1, |f|);
    assert f[h + 1..|f|] == s;
    assert f[h] == x && q[off + h] == x;
    if !Clear(s, d) {
      WalkStops(q, off + h + 1, |q|, d, b);
    } else {
      Walk(q, off + h + 1, |q|, d, b);
      var d' := d + Net(s);
      if x == ':' && d' == 0 {
        OneStep(q, off + h, d', b);
      } else {
        MemberPrefix(c, f, h);
        assert f[..h] == p + "operator" + sym;
        OperatorJumps(p, sym);
        JumpStep(q, off + h, d', b);
        LeavePrefix(c, p, f, d', b);
      }
    }
  }

  /** From the `o` of `operator` the walk crosses what precedes the operator name. */
  lemma LeavePrefix(c: string, p: string, f: string, d: int, b: int)
    requires NoOperator(p) && p + "o" <= f
    requires b == 0 || b == -|Qualified(c, f)|
    ensures var q, e := Qualified(c, f), Exit(Qualified(c, f), |c| + 2 + |p| + b, d);
            if Clear(p, d) then e == Exit(q, |c| + 1 + b, d + Net(p))
            else e.Some? && |c| + 2 + b <= e.value < |c| + 2 + |p| + b
  {
    hide Exit, Jump, Net, Clear;
    var q := Qualified(c, f);
    forall i | 0 <= i < |p| + 1 ensures Jump(f[..i]) == 0 {
      assert f[..i] == p[..i];
    }
    QuietMember(c, f, 0, |p| + 1);
    assert f[0..|p|] == p && f[|p|] == 'o' && q[|c| + 2 + |p|] == 'o';
    OneStep(q, |c| + 2 + |p|, d, b);
    QuietMember(c, f, 0, |p|);
    if Clear(p, d) {
      Walk(q, |c| + 2, |c| + 2 + |p|, d, b);
    } else {
      WalkStops(q, |c| + 2, |c| + 2 + |p|, d, b);
    }
  }

  /** Around an operator name the brackets are those of the text before it and of the text
      after the character that follows it. */
  lemma OperatorRoundTrip(c: string, p: string, sym: string, x: char, s: string, arguments: Option<string>)
    requires Printable(c, OperatorMember(p, sym, x, s), arguments)
    requires OneOperator(p, sym, x, s)
    requires WellBracketed(p + s) && (x == ':' ==> Net(s) != 0)
    ensures ClassName(Printed(c, OperatorMember(p, sym, x, s), arguments)) == Class(c)
  {
    hide Exit, Jump, Net, Clear, ClassName, Printable;
    NetConcat(p, s);
    ClearMeansBracketed(p + s);
    PassOperator(c, p, sym, x, s, 0, 0);
    Found(c, OperatorMember(p, sym, x, s), arguments);
  }

  lemma OperatorRoundTripExactly(c: string, p: string, sym: string, x: char, s: string, arguments: Option<string>)
    requires Printable(c, OperatorMember(p, sym, x, s), arguments)
    requires NoOperator(c) && Net(c) == 0 && OneOperator(p, sym, x, s)
    ensures ClassName(Printed(c, OperatorMember(p, sym, x, s), arguments)) == Class(c) <==>
            WellBracketed(p + s) && (x == ':' ==> Net(s) != 0)
  {
    hide Exit, Jump, Net, Clear, ClassName, Printable;
    var f := OperatorMember(p, sym, x, s);
    NetConcat(p, s);
    if Net(p + s) == 0 {
      ClearMeansBracketed(p + s);
    }
    PassOperator(c, p, sym, x, s, 0, 0);
    PassOperator(c, p, sym, x, s, Net(p + s), -|Qualified(c, f)|);
    if WellBracketed(p + s) && (x == ':' ==> Net(s) != 0) {
      Found(c, f, arguments);
    } else {
      NotFound(c, f, arguments, Net(p + s));
    }
  }

  // ---------------------------------------------------------------- the usual operator names

  const COMPARISONS := {"<<", ">>", "<=", ">=", "<<=", ">>="}

  lemma QuietPrefix(s: string, i: nat)
    requires NoOperator(s) && i <= |s|
    ensures Jump(s[..i]) == 0
  {
  }

  lemma ShortMember(sym: string, x: char)
    requires sym in SYMBOLS
    ensures OneOperator("", sym, x, "")
    ensures OperatorMember("", sym, x, "") == "operator" + sym + [x]
  {
    assert Jump("") == 0;
  }

  lemma EmptyIsBracketed()
    ensures WellBracketed("" + "")
  {
  }

  lemma OneCharacterMore(c: string, sym: string, x: char, arguments: Option<string>)
    requires sym in SYMBOLS && x != ':' && Printable(c, "operator" + sym + [x], arguments)
    ensures ClassName(Printed(c, "operator" + sym + [x], arguments)) == Class(c)
  {
    hide Exit, Jump, EndsWith, Net, Clear, ClassName, Printable, Printed, OneOperator, WellBracketed, OperatorMember;
    EmptyIsBracketed();
    ShortMember(sym, x);
    OperatorRoundTrip(c, "", sym, x, "", arguments);
  }

  lemma SplitsAs(op: string, sym: string, x: char)
    requires op == sym + [x]
    ensures op[..|op| - 1] == sym && op[|op| - 1] == x
    ensures "operator" + op == "operator" + sym + [x]
  {
  }

  lemma ComparisonSplits(op: string) returns (sym: string, x: char)
    requires op in COMPARISONS
    ensures sym in SYMBOLS && x != ':' && op == sym + [x]
  {
    if op == "<<" || op == "<=" {
      sym, x := "<", op[1];
    } else if op == ">>" || op == ">=" {
      sym, x := ">", op[1];
    } else {
      sym, x := [op[0], op[0]], '=';
    }
  }

  /** Shift and comparison operators of any class are attributed to it. */
  lemma ComparisonOperators(c: string, op: string, arguments: Option<string>)
    requires op in COMPARISONS && Printable(c, "operator" + op, arguments)
    ensures ClassName(Printed(c, "operator" + op, arguments)) == Class(c)
  {
    hide *;
    var sym, x := ComparisonSplits(op);
    SplitsAs(op, sym, x);
    OneCharacterMore(c, sym, x, arguments);
  }

  /** An operator name, a space and a bracketed suffix, as printed for an operator template. */
  lemma OperatorTemplates(c: string, sym: string, t: string, arguments: Option<string>)
    requires sym in SYMBOLS && NoOperator(t) && WellBracketed(t)
    requires Printable(c, "operator" + sym + " " + t, arguments)
    ensures ClassName(Printed(c, "operator" + sym + " " + t, arguments)) == Class(c)
  {
    hide Exit, Jump, EndsWith, Net, Clear, ClassName, Printable, NoOperator;
    var f := OperatorMember("", sym, ' ', t);
    assert f == "operator" + sym + " " + t;
    ShortMember(sym, ' ');
    var head := "operator" + sym + " ";
    forall i | 8 + |sym| < i < |f| ensures Jump(f[..i]) == 0 {
      assert f[..i] == head + t[..i - |head|];
      JumpIsLocal(head, t[..i - |head|]);
      QuietPrefix(t, i - |head|);
    }
    assert "" + t == t;
    OperatorRoundTrip(c, "", sym, ' ', t, arguments);
  }

  const BARE := {"<", ">", "->", "->*"}

  lemma EndsOtherwise(u: string, op: string)
    requires op in {SHIFT_IN, SHIFT_OUT, GREATER, LESS}
    requires |u| < 9 || u[|u| - 1] !in "<>" || u[|u| - 2] == '-'
    ensures !EndsWith(u, op)
  {
    assert op[|op| - 1] in "<>" && op[|op| - 2] != '-';
    if EndsWith(u, op) {
      assert u[|u| - |op| + (|op| - 1)] == op[|op| - 1];
      SecondLast(u, op);
    }
  }

  lemma NoJumpAfter(u: string)
    requires |u| < 9 || u[|u| - 1] !in "<>" || u[|u| - 2] == '-'
    ensures Jump(u) == 0
  {
    hide EndsWith;
    EndsOtherwise(u, SHIFT_IN);
    EndsOtherwise(u, SHIFT_OUT);
    EndsOtherwise(u, GREATER);
    EndsOtherwise(u, LESS);
  }

  lemma BareMember(op: string)
    requires op in BARE
    ensures NoJump("operator" + op)
    ensures Net("operator" + op) == if op == "<" then -1 else 1
    ensures forall d :: Clear("operator" + op, d)
  {
    hide Jump, Net, Clear;
    var f := "operator" + op;
    forall i | 0 <= i < |f| ensures Jump(f[..i]) == 0 {
      assert i >= 9 ==> op[0] == '-' && f[8] == '-';
      NoJumpAfter(f[..i]);
    }
    BareBrackets(op);
  }

  lemma {:induction false} Flat(s: string, d: int)
    requires forall k :: 0 <= k < |s| ==> s[k] !in "<>"
    ensures Net(s) == 0 && (d != 0 ==> Clear(s, d))
  {
    if s != [] {
      Flat(s[..|s| - 1], d);
    }
  }

  lemma {:induction false} NoColons(s: string, d: int)
    requires ':' !in s
    ensures Clear(s, d)
  {
    if s != [] {
      NoColons(s[..|s| - 1], d + Bracket(s[|s| - 1]));
    }
  }

  lemma LoneBracket(head: string, angle: char, tail: string)
    requires forall k :: 0 <= k < |head| ==> head[k] !in "<>"
    requires forall k :: 0 <= k < |tail| ==> tail[k] !in "<>"
    ensures Net(head + [angle] + tail) == Bracket(angle)
  {
    hide Net, Clear;
    NetConcat(head + [angle], tail);
    NetConcat(head, [angle]);
    Flat(head, 0);
    Flat(tail, 0);
    OneBracket(angle);
  }

  lemma BareBrackets(op: string)
    requires op in BARE
    ensures Net("operator" + op) == if op == "<" then -1 else 1
    ensures forall d :: Clear("operator" + op, d)
  {
    hide Net, Clear;
    if op == "<" || op == ">" {
      LoneBracket("operator", op[0], "");
      assert "operator" + op == "operator" + [op[0]] + "";
    } else {
      LoneBracket("operator-", '>', op[2..]);
      assert "operator" + op == "operator-" + ['>'] + op[2..];
    }
    forall d ensures Clear("operator" + op, d) {
      NoColons("operator" + op, d);
    }
  }

  lemma OneBracket(c: char)
    ensures Net([c]) == Bracket(c)
  {
    assert [c][..0] == [];
  }

  /** A bare `operator<`, `operator>`, `operator->` or `operator->*` leaves its bracket behind, so the
      class path is walked at depth `net` and, once the index has gone negative, at another depth
      again. The subscript raises exactly when neither pass meets a colon at depth 0. */
  lemma BareOperatorExactly(c: string, op: string, arguments: Option<string>)
    requires op in BARE && Printable(c, "operator" + op, arguments) && NoOperator(c)
    ensures var net := Net("operator" + op); var again := net + net + Net(c);
            ClassName(Printed(c, "operator" + op, arguments)) == IndexError <==>
            Clear(c, net) && again != 0 && Clear(c, again)
  {
    hide Exit, Jump, Net, Clear, ClassName, Printable, NoOperator;
    var f := "operator" + op;
    BareMember(op);
    PassPlain(c, f, 0, 0);
    PassClass(c, f, Net(f), 0);
    if Clear(c, Net(f)) {
      SecondPass(c, f);
    }
    ClassOfPrinted(c, f, arguments);
  }

  /** The pass over the member and the class path after the index has gone negative. */
  lemma SecondPass(c: string, f: string)
    requires NoJump(f) && (forall d :: Clear(f, d)) && NoOperator(c)
    ensures var q, d := Qualified(c, f), Net(f) + Net(c); var e := Exit(q, -1, d);
            e == None <==> d + Net(f) != 0 && Clear(c, d + Net(f))
  {
    hide Exit, Jump, Net, Clear, NoOperator, NoJump;
    var q, d := Qualified(c, f), Net(f) + Net(c);
    var again := d + Net(f);
    PassPlain(c, f, d, -|q|);
    if again == 0 {
      assert q[|c| + 1] == ':';
      OneStep(q, |c| + 1, 0, -|q|);
    } else {
      PassClass(c, f, again, -|q|);
      BelowFront(q, again + Net(c));
    }
  }

  /** In a balanced class path this is a matter of nesting: a colon between one or two unclosed `<`
      stops the scan for `operator<`; for the other operators it takes as many unmatched `>`, which
      names do not have. */
  lemma BareOperatorInBalanced(c: string, op: string, arguments: Option<string>)
    requires op in BARE && Printable(c, "operator" + op, arguments) && NoOperator(c) && Net(c) == 0
    ensures var net := if op == "<" then -1 else 1;
            ClassName(Printed(c, "operator" + op, arguments)) == IndexError <==>
            forall i :: 0 <= i < |c| && c[i] == ':' ==> Net(c[..i]) != net && Net(c[..i]) != net + net
  {
    hide Exit, Jump, Net, Clear, ClassName, Printable, NoOperator;
    BareMember(op);
    var net := Net("operator" + op);
    BareOperatorExactly(c, op, arguments);
    ClearMeansOffZero(c, net);
    ClearMeansOffZero(c, net + net);
    forall i | 0 <= i < |c| && c[i] == ':' ensures Net(c[i + 1..]) == -Net(c[..i]) {
      NetAround(c, i);
    }
  }

  /** So in a class path free of brackets it always raises. */
  lemma BareOperatorRaises(c: string, op: string, arguments: Option<string>)
    requires op in BARE && Printable(c, "operator" + op, arguments)
    requires forall k :: 0 <= k < |c| ==> c[k] !in "<>"
    ensures ClassName(Printed(c, "operator" + op, arguments)) == IndexError
  {
    hide Exit, Jump, Net, Clear, ClassName, Printable, NoOperator;
    BareMember(op);
    Flat(c, Net("operator" + op));
    Flat(c, Net("operator" + op) + Net("operator" + op));
    NoBracketsNoOperator(c);
    BareOperatorExactly(c, op, arguments);
  }

  lemma NoBracketsNoOperator(c: string)
    requires forall k :: 0 <= k < |c| ==> c[k] !in "<>"
    ensures NoOperator(c)
  {
    hide Jump;
    forall i | 0 <= i <= |c| ensures Jump(c[..i]) == 0 {
      NoJumpAfter(c[..i]);
    }
  }

  // ---------------------------------------------------------------- what a found class says about the name

  predicate BesideColon(s: string, i: nat) {
    (0 < i <= |s| && s[i - 1] == ':') || (i + 1 < |s| && s[i + 1] == ':')
  }

  /** Every colon has a colon next to it. */
  ghost predicate ColonsPaired(s: string) {
    forall i :: 0 <= i < |s| && s[i] == ':' ==> BesideColon(s, i)
  }

  function PositionOf(s: string, index: int): int {
    if index < 0 then |s| + index else index
  }

  /** A stop at this index, if the walk stops here, is at the right colon of a pair. */
  ghost predicate RightColon(s: string, index: int, d: int) {
    -|s| <= index < |s| && CharAt(s, index) == ':' && d == 0 ==>
      var p := PositionOf(s, index); p > 0 && s[p - 1] == ':'
  }

  lemma RightColonKept(s: string, index: int, d: int)
    requires ColonsPaired(s) && RightColon(s, index, d)
    requires -|s| <= index < |s| && !(CharAt(s, index) == ':' && d == 0)
    ensures RightColon(s, index - 1, d + Bracket(CharAt(s, index)))
  {
    if index - 1 >= -|s| && CharAt(s, index - 1) == ':' {
      var p := PositionOf(s, index - 1);
      assert s[p] == ':';
      if p + 1 < |s| {
        assert s[p + 1] == CharAt(s, index);
      }
    }
  }

  ghost predicate AtPair(s: string, index: int) {
    -|s| <= index < |s| &&
    var p := PositionOf(s, index); p > 0 && s[p] == ':' && s[p - 1] == ':'
  }

  /** With paired colons the walk can only stop at the right colon of a pair. */
  lemma {:induction false} StopsAtPair(s: string, index: int, d: int)
    requires index < |s| && ColonsPaired(s) && RightColon(s, index, d)
    ensures Exit(s, index, d).Some? ==> AtPair(s, Exit(s, index, d).value)
    decreases index + |s| + 1
  {
    hide Jump, RightColon, AtPair, ColonsPaired, Before, CharAt;
    if index >= -|s| && CharAt(s, index) == ':' && d == 0 {
      RightColonHere(s, index);
    } else if index >= -|s| {
      var j := Jump(Before(s, index));
      if j > 0 {
        LandsOnO(s, index, d);
        StopsAtPair(s, index - j, d);
      } else {
        RightColonKept(s, index, d);
        StopsAtPair(s, index - 1, d + Bracket(CharAt(s, index)));
      }
    }
  }

  lemma RightColonHere(s: string, index: int)
    requires -|s| <= index < |s| && CharAt(s, index) == ':' && RightColon(s, index, 0)
    ensures AtPair(s, index)
  {
  }

  lemma NotAColon(s: string, index: int, d: int)
    requires -|s| <= index < |s| && CharAt(s, index) != ':'
    ensures RightColon(s, index, d)
  {
  }

  lemma LandsOnO(s: string, index: int, d: int)
    requires -|s| <= index < |s| && Jump(Before(s, index)) > 0
    ensures var k := index - Jump(Before(s, index));
            -|s| <= k && CharAt(s, k) == 'o' && RightColon(s, k, d)
  {
    hide Jump, RightColon, Before, CharAt;
    var p := PositionOf(s, index);
    var b := index - p;
    Position(s, p, b);
    var j := Jump(s[..p]);
    StartsWithO(s[..p]);
    Position(s, p - j, b);
    NotAColon(s, p - j + b, d);
  }

  lemma StartsWithO(chopped: string)
    requires Jump(chopped) > 0
    ensures chopped[|chopped| - Jump(chopped)] == 'o'
  {
    hide EndsWith;
    FirstIsO(chopped, SHIFT_IN);
    FirstIsO(chopped, SHIFT_OUT);
    FirstIsO(chopped, GREATER);
    FirstIsO(chopped, LESS);
  }

  lemma FirstIsO(s: string, op: string)
    requires op in {SHIFT_IN, SHIFT_OUT, GREATER, LESS}
    ensures EndsWith(s, op) ==> |op| <= |s| && s[|s| - |op|] == 'o'
  {
    assert op[0] == 'o';
  }

  lemma LastRightColon(s: string)
    requires ColonsPaired(s)
    ensures RightColon(s, |s| - 1, 0)
  {
    if s != [] && s[|s| - 1] == ':' {
      assert BesideColon(s, |s| - 1);
    }
  }

  lemma StripKeepsPairs(name: string)
    requires ColonsPaired(name)
    ensures ColonsPaired(StripArguments(name))
  {
    var s := StripArguments(name);
    forall i | 0 <= i < |s| && s[i] == ':' ensures BesideColon(s, i) {
      assert s == name[..|s|] && name[i] == ':';
      if i > 0 && name[i - 1] == ':' {
        assert s[i - 1] == ':';
      } else {
        assert name[i + 1] == ':';
        assert i + 1 < |s|;
      }
    }
  }

  /** If the walk stops here, no colon stands to the right of the stop. */
  ghost predicate NoColonRight(s: string, index: int, d: int) {
    -|s| <= index < |s| && CharAt(s, index) == ':' && d == 0 ==>
      var p := PositionOf(s, index); p + 1 < |s| ==> s[p + 1] != ':'
  }

  lemma NoColonRightKept(s: string, index: int, d: int)
    requires -|s| <= index < |s| && !(CharAt(s, index) == ':' && d == 0)
    ensures NoColonRight(s, index - 1, d + Bracket(CharAt(s, index)))
  {
  }

  lemma NoColonHere(s: string, index: int, d: int)
    requires -|s| <= index < |s| && CharAt(s, index) != ':'
    ensures NoColonRight(s, index, d)
  {
  }

  lemma ExitUnfolds(s: string, index: int, depth: int)
    requires index < |s|
    ensures Exit(s, index, depth) ==
            if index < -|s| then None
            else if CharAt(s, index) == ':' && depth == 0 then Some(index)
            else if Jump(Before(s, index)) > 0 then Exit(s, index - Jump(Before(s, index)), depth)
            else Exit(s, index - 1, depth + Bracket(CharAt(s, index)))
  {
  }

  ghost predicate LastOfRow(s: string, e: Option<int>) {
    e.Some? ==> -|s| <= e.value < |s| && CharAt(s, e.value) == ':' && NoColonRight(s, e.value, 0)
  }

  lemma LastHere(s: string, index: int)
    requires -|s| <= index < |s| && CharAt(s, index) == ':' && NoColonRight(s, index, 0)
    ensures LastOfRow(s, Some(index))
  {
  }

  lemma NoStop(s: string)
    ensures LastOfRow(s, None)
  {
  }

  /** Of several colons in a row the walk stops at the last one. */
  lemma {:induction false} StopsAtLast(s: string, index: int, d: int)
    requires index < |s| && NoColonRight(s, index, d)
    ensures LastOfRow(s, Exit(s, index, d))
    decreases index + |s| + 1
  {
    hide Exit, Jump, Before, CharAt, Bracket, NoColonRight, LastOfRow;
    ExitUnfolds(s, index, d);
    if index < -|s| {
      NoStop(s);
    } else if CharAt(s, index) == ':' && d == 0 {
      LastHere(s, index);
    } else if Jump(Before(s, index)) > 0 {
      var k := index - Jump(Before(s, index));
      LandsOnO(s, index, d);
      NoColonHere(s, k, d);
      StopsAtLast(s, k, d);
    } else {
      NoColonRightKept(s, index, d);
      StopsAtLast(s, index - 1, d + Bracket(CharAt(s, index)));
    }
  }

  /** The name of a function begins with the class inferred for it and `::` exactly when the colon
      the scan stops at is the right one of a pair. */
  lemma PrefixExactly(name: string)
    requires ClassName(name).Class?
    ensures var s := StripArguments(name);
            s != [] && Exit(s, |s| - 1, 0).Some? &&
            (ClassName(name).name + "::" <= name <==> AtPair(s, Exit(s, |s| - 1, 0).value))
  {
    hide Exit, Contains;
    var s := StripArguments(name);
    StopsAtLast(s, |s| - 1, 0);
    var k := Exit(s, |s| - 1, 0).value;
    StopIsPrefix(name, s, k);
  }

  lemma StopIsPrefix(name: string, s: string, k: int)
    requires s <= name && (|s| < |name| ==> name[|s|] != ':')
    requires -|s| <= k < |s| && CharAt(s, k) == ':' && NoColonRight(s, k, 0)
    ensures Before(s, k - 1) + "::" <= name <==> AtPair(s, k)
  {
    var p, c := PositionOf(s, k), Before(s, k - 1);
    if p > 0 {
      assert c == s[..p - 1] == name[..p - 1];
      assert s[p] == name[p] && s[p - 1] == name[p - 1];
      PairFollows(name, p);
    } else if k == 0 {
      assert c == s[..|s| - 1];
      assert (c + "::")[|s|] == ':';
    } else {
      assert c == "" && (c + "::")[1] == ':';
      assert 1 < |s| ==> s[1] == name[1];
    }
  }

  lemma PairFollows(name: string, p: nat)
    requires 0 < p < |name| && name[p] == ':'
    ensures name[..p - 1] + "::" <= name <==> name[p - 1] == ':'
  {
    var c := name[..p - 1] + "::";
    if name[p - 1] == ':' {
      assert c == name[..p + 1];
    }
    if c <= name {
      assert c[p - 1] == name[p - 1];
    }
  }

  /** The name of a function with an inferred class begins with that class and `::` whenever its
      colons come in pairs. */
  lemma ClassIsPrefix(name: string)
    requires ColonsPaired(name) && ClassName(name).Class?
    ensures ClassName(name).name + "::" <= name
  {
    hide Exit, ClassName, AtPair;
    var s := StripArguments(name);
    PrefixExactly(name);
    StripKeepsPairs(name);
    LastRightColon(s);
    StopsAtPair(s, |s| - 1, 0);
  }

  // ---------------------------------------------------------------- where the scan stops, read off the name

  /** A colon at p with as many `<` as `>` to its right, give or take the depth d the pass starts
      with, and no such colon further right. */
  ghost predicate Outermost(s: string, p: nat, d: int) {
    p < |s| && s[p] == ':' && d + Net(s[p + 1..]) == 0 &&
    forall q :: p < q < |s| && s[q] == ':' ==> d + Net(s[q + 1..]) != 0
  }

  lemma PassStops(s: string, p: nat, d: int, b: int)
    requires NoOperator(s) && Outermost(s, p, d) && (b == 0 || b == -|s|)
    ensures Exit(s, |s| - 1 + b, d) == Some(p + b)
  {
    hide Exit, Jump, Net;
    var t := s[p + 1..];
    forall i | 0 <= i < |t| && t[i] == ':' ensures d + Net(t[i + 1..]) != 0 {
      assert t[i + 1..] == s[p + 1 + i + 1..];
    }
    ClearMeansOffZero(t, d);
    assert s[p + 1..|s|] == t;
    Walk(s, p + 1, |s|, d, b);
    OneStep(s, p, 0, b);
  }

  lemma PassGoesOn(s: string, d: int, b: int)
    requires NoOperator(s) && s != [] && (b == 0 || b == -|s|)
    requires forall p: nat :: !Outermost(s, p, d)
    ensures Exit(s, |s| - 1 + b, d) == Exit(s, -1 + b, d + Net(s))
  {
    hide Exit, Jump, Net, NoOperator;
    RightmostOff(s, d, |s|);
    ClearMeansOffZero(s, d);
    assert s[0..|s|] == s;
    QuietAll(s);
    Walk(s, 0, |s|, d, b);
  }

  lemma QuietAll(s: string)
    requires NoOperator(s)
    ensures Quiet(s, 0, |s|)
  {
  }

  lemma {:induction false} RightmostOff(s: string, d: int, n: nat)
    requires n <= |s| && forall p: nat :: !Outermost(s, p, d)
    ensures forall i :: |s| - n <= i < |s| && s[i] == ':' ==> d + Net(s[i + 1..]) != 0
  {
    hide Net;
    if n > 0 {
      RightmostOff(s, d, n - 1);
      assert !Outermost(s, |s| - n, d);
    }
  }

  /** Where the scan of a name free of the recognised operator names stops: at the rightmost colon
      with balanced brackets to its right; if there is none, at the rightmost one the brackets to the
      right of which make up for those of the whole name; and if there is none either, nowhere. */
  lemma ScanStopsExactly(s: string, p: nat)
    requires NoOperator(s) && s != []
    ensures var e := Exit(s, |s| - 1, 0);
            && (Outermost(s, p, 0) ==> e == Some(p))
            && ((forall q: nat :: !Outermost(s, q, 0)) && Outermost(s, p, Net(s)) ==> e == Some(p - |s|))
            && ((forall q: nat :: !Outermost(s, q, 0) && !Outermost(s, q, Net(s))) ==> e == None)
  {
    hide Exit, Jump, Net, NoOperator, Outermost;
    if Outermost(s, p, 0) {
      PassStops(s, p, 0, 0);
    } else if forall q: nat :: !Outermost(s, q, 0) {
      PassGoesOn(s, 0, 0);
      if Outermost(s, p, Net(s)) {
        PassStops(s, p, Net(s), -|s|);
      } else if forall q: nat :: !Outermost(s, q, Net(s)) {
        PassGoesOn(s, Net(s), -|s|);
        BelowFront(s, Net(s) + Net(s));
      }
    }
  }

  /** What can be checked before the call: a function is found under its class exactly when the
      outermost colon of its name is the right one of a pair. */
  lemma PrefixCheckable(name: string, p: nat)
    requires var s := StripArguments(name);
             NoOperator(s) && Contains(s, "::") &&
             (Outermost(s, p, 0) || ((forall q: nat :: !Outermost(s, q, 0)) && Outermost(s, p, Net(s))))
    ensures ClassName(name).Class?
    ensures ClassName(name).name + "::" <= name <==> p > 0 && StripArguments(name)[p - 1] == ':'
  {
    var s := StripArguments(name);
    hide ClassName, Exit, Jump, NoOperator, StripArguments, Contains, Net;
    assert s[p] == ':';
    ScanStopsExactly(s, p);
    hide Outermost;
    ClassOf(name);
    PrefixExactly(name);
  }

  lemma ClassOf(name: string)
    requires var s := StripArguments(name); s != [] && Contains(s, "::")
    ensures var s := StripArguments(name);
            ClassName(name) ==
            match Exit(s, |s| - 1, 0)
            case None => IndexError
            case Some(k) => Class(Before(s, k - 1))
  {
    hide Exit, Contains, StripArguments, Before;
  }

  // ---------------------------------------------------------------- any name at all, by its passes

  /** What a pass over a text from the right comes to: a stop at p, or its left end at this depth. */
  datatype Passage = Stops(p: nat) | Leaves(depth: int)

  /** One pass over s[..hi], operator names jumped over. */
  function Pass(s: string, hi: nat, d: int): Passage
    requires hi <= |s|
    decreases hi
  {
    if hi == 0 then Leaves(d)
    else if s[hi - 1] == ':' && d == 0 then Stops(hi - 1)
    else
      var j := Jump(s[..hi - 1]);
      if j > 0 then Pass(s, hi - j, d) else Pass(s, hi - 1, d + Bracket(s[hi - 1]))
  }

  lemma {:induction false} ExitIsPass(s: string, hi: nat, d: int, b: int)
    requires s != [] && hi <= |s| && (b == 0 || b == -|s|)
    ensures Exit(s, hi - 1 + b, d) ==
            match Pass(s, hi, d)
            case Stops(p) => Some(p + b)
            case Leaves(d') => Exit(s, -1 + b, d')
    decreases hi
  {
    hide Exit, Jump, Before, CharAt, Bracket;
    if hi > 0 {
      Position(s, hi - 1, b);
      ExitUnfolds(s, hi - 1 + b, d);
      if !(s[hi - 1] == ':' && d == 0) {
        var j := Jump(s[..hi - 1]);
        if j > 0 {
          ExitIsPass(s, hi - j, d, b);
        } else {
          ExitIsPass(s, hi - 1, d + Bracket(s[hi - 1]), b);
        }
      }
    }
  }

  /** The scan is a pass over the name and, if that does not stop, a second one at the depth reached;
      then the subscript raises. */
  lemma ScanByPasses(s: string)
    requires s != []
    ensures Exit(s, |s| - 1, 0) ==
            match Pass(s, |s|, 0)
            case Stops(p) => Some(p)
            case Leaves(d) =>
              match Pass(s, |s|, d)
              case Stops(p) => Some(p - |s|)
              case Leaves(_) => None
  {
    hide Exit, Pass;
    ExitIsPass(s, |s|, 0, 0);
    if Pass(s, |s|, 0).Leaves? {
      var d := Pass(s, |s|, 0).depth;
      ExitIsPass(s, |s|, d, -|s|);
      if Pass(s, |s|, d).Leaves? {
        BelowFront(s, Pass(s, |s|, d).depth);
      }
    }
  }

  lemma {:induction false} PassPrefix(a: string, g: string, hi: nat, d: int)
    requires hi <= |a|
    ensures Pass(a + g, hi, d) == Pass(a, hi, d)
    decreases hi
  {
    hide Jump;
    if hi > 0 {
      var s := a + g;
      assert s[..hi - 1] == a[..hi - 1] && s[hi - 1] == a[hi - 1];
      if !(a[hi - 1] == ':' && d == 0) {
        var j := Jump(a[..hi - 1]);
        if j > 0 { PassPrefix(a, g, hi - j, d); } else { PassPrefix(a, g, hi - 1, d + Bracket(a[hi - 1])); }
      }
    }
  }

  lemma PassStep(s: string, hi: nat, d: int)
    requires 0 < hi <= |s|
    ensures var j := Jump(s[..hi - 1]);
            Pass(s, hi, d) ==
            if s[hi - 1] == ':' && d == 0 then Stops(hi - 1)
            else if j > 0 then Pass(s, hi - j, d) else Pass(s, hi - 1, d + Bracket(s[hi - 1]))
  {
    hide Jump;
  }

  /** A pass over text that follows a colon does not look behind the colon. */
  lemma {:induction false} PassAfterColon(a: string, g: string, hi: nat, d: int)
    requires a != "" && a[|a| - 1] == ':' && hi <= |g|
    ensures Pass(a + g, |a| + hi, d) ==
            match Pass(g, hi, d)
            case Stops(p) => Stops(|a| + p)
            case Leaves(d') => Pass(a, |a|, d')
    decreases hi
  {
    hide Jump, Bracket;
    if hi == 0 {
      PassPrefix(a, g, |a|, d);
    } else {
      hide Pass;
      var s, m := a + g, |a| + hi;
      assert s[..m - 1] == a + g[..hi - 1] && s[m - 1] == g[hi - 1];
      JumpIsLocal(a, g[..hi - 1]);
      PassStep(s, m, d);
      PassStep(g, hi, d);
      if !(g[hi - 1] == ':' && d == 0) {
        var j := Jump(g[..hi - 1]);
        if j > 0 {
          PassAfterColon(a, g, hi - j, d);
        } else {
          PassAfterColon(a, g, hi - 1, d + Bracket(g[hi - 1]));
        }
      }
    }
  }

  lemma PassSeparator(c: string, e: int)
    ensures |c + "::"| == |c| + 2
    ensures Pass(c + "::", |c| + 2, e) == if e == 0 then Stops(|c| + 1) else Pass(c + ":", |c| + 1, e)
  {
    hide Jump;
    var a := c + "::";
    assert a[|c| + 1] == ':' && a[..|c| + 1] == c + ":";
    NoJumpAfter(c + ":");
    PassUnfolds(a, e);
    hide Pass;
    PassPrefix(c + ":", ":", |c| + 1, e);
    assert a == (c + ":") + ":";
  }

  lemma PassUnfolds(a: string, e: int)
    requires a != "" && a[|a| - 1] == ':' && Jump(a[..|a| - 1]) == 0
    ensures Pass(a, |a|, e) == if e == 0 then Stops(|a| - 1) else Pass(a, |a| - 1, e)
  {
    hide Jump;
  }

  /** A pass over a qualified name: the member, the separator, the class path with one colon. */
  lemma PassQualified(c: string, f: string, d: int)
    ensures var q := Qualified(c, f);
            Pass(q, |q|, d) ==
            match Pass(f, |f|, d)
            case Stops(p) => Stops(|c| + 2 + p)
            case Leaves(e) => if e == 0 then Stops(|c| + 1) else Pass(c + ":", |c| + 1, e)
  {
    hide Pass;
    assert Qualified(c, f) == (c + "::") + f;
    PassAfterColon(c + "::", f, |f|, d);
    if Pass(f, |f|, d).Leaves? {
      PassSeparator(c, Pass(f, |f|, d).depth);
    }
  }

  /** The passes over a name that end at the separator. */
  ghost predicate ReachesSeparator(c: string, f: string) {
    match Pass(f, |f|, 0)
    case Stops(_) => false
    case Leaves(d) =>
      d == 0 ||
      match Pass(c + ":", |c| + 1, d)
      case Stops(_) => false
      case Leaves(e) => Pass(f, |f|, e) == Leaves(0)
  }

  /** For every class path and member, whatever they contain: the class of the printed name comes back
      if and only if a pass over the member ends at depth 0, be it the first or the second one. With an
      argument list the member may hold parentheses, as when the list itself has inner ones. */
  lemma RoundTripByPasses(c: string, f: string, arguments: Option<string>)
    requires Printable(c, f, arguments)
    ensures ClassName(Printed(c, f, arguments)) == Class(c) <==> ReachesSeparator(c, f)
  {
    hide Exit, Pass, ClassName, Printed, Printable, Before, Qualified;
    ClassOfPrinted(c, f, arguments);
    QualifiedSize(c, f);
    ScanByPasses(Qualified(c, f));
    PassQualified(c, f, 0);
    PassInside(f, |f|, 0);
    match Pass(f, |f|, 0)
    case Stops(p) => OtherStop(c, f, |c| + 2 + p);
    case Leaves(d) =>
      if d == 0 {
        StopAtSeparator(c, f);
      } else {
        PassInside(c + ":", |c| + 1, d);
        match Pass(c + ":", |c| + 1, d)
        case Stops(p) => OtherStop(c, f, p);
        case Leaves(e) => SecondPassDecides(c, f, e);
      }
  }

  lemma QualifiedSize(c: string, f: string)
    ensures |Qualified(c, f)| == |c| + 2 + |f|
  {
  }

  lemma StopAtSeparator(c: string, f: string)
    ensures Before(Qualified(c, f), |c|) == c
    ensures Before(Qualified(c, f), |c| - |Qualified(c, f)|) == c
  {
  }

  /** A stop is at a colon inside the part passed over; a lone colon is no stop unless at depth 0. */
  lemma {:induction false} PassInside(s: string, hi: nat, d: int)
    requires hi <= |s|
    ensures Pass(s, hi, d).Stops? ==> Pass(s, hi, d).p < hi && s[Pass(s, hi, d).p] == ':'
    ensures hi == 1 && d != 0 ==> Pass(s, hi, d).Leaves?
    decreases hi
  {
    hide Jump;
    if hi > 0 && !(s[hi - 1] == ':' && d == 0) {
      var j := Jump(s[..hi - 1]);
      if j > 0 { PassInside(s, hi - j, d); } else { PassInside(s, hi - 1, d + Bracket(s[hi - 1])); }
    }
  }

  lemma SecondPassDecides(c: string, f: string, e: int)
    ensures var q := Qualified(c, f);
            match Pass(q, |q|, e)
            case Stops(p) => Before(q, p - |q| - 1) == c <==> Pass(f, |f|, e) == Leaves(0)
            case Leaves(_) => Pass(f, |f|, e) != Leaves(0)
  {
    hide Pass, Before, Qualified;
    QualifiedSize(c, f);
    var n := |Qualified(c, f)|;
    PassQualified(c, f, e);
    PassInside(f, |f|, e);
    match Pass(f, |f|, e)
    case Stops(p) => OtherStop(c, f, |c| + 2 + p - n);
    case Leaves(d) =>
      if d == 0 {
        StopAtSeparator(c, f);
      } else {
        PassInside(c + ":", |c| + 1, d);
        if Pass(c + ":", |c| + 1, d).Stops? {
          OtherStop(c, f, Pass(c + ":", |c| + 1, d).p - n);
        }
      }
  }

  /** A member without colons and operator names is passed at any depth. */
  lemma {:induction false} PlainPass(f: string, hi: nat, d: int)
    requires hi <= |f| && NoJump(f) && ':' !in f
    ensures Pass(f, hi, d) == Leaves(d + Net(f[..hi]))
  {
    hide Jump;
    if hi > 0 {
      PlainPass(f, hi - 1, d + Bracket(f[hi - 1]));
      assert f[..hi][..hi - 1] == f[..hi - 1];
    }
  }

  /** After a bare operator, for every class path: the subscript raises exactly when neither pass over
      the class path stops and the second one does not reach the separator at depth 0. */
  lemma BareOperatorByPasses(c: string, op: string, arguments: Option<string>)
    requires op in BARE && Printable(c, "operator" + op, arguments)
    ensures var net := if op == "<" then -1 else 1;
            ClassName(Printed(c, "operator" + op, arguments)) == IndexError <==>
            match Pass(c + ":", |c| + 1, net)
            case Stops(_) => false
            case Leaves(e) => e + net != 0 && Pass(c + ":", |c| + 1, e + net).Leaves?
  {
    hide Exit, Pass, ClassName, Printed, Printable, Before, Jump, Net, NoJump;
    var f := "operator" + op;
    var q := Qualified(c, f);
    ClassOfPrinted(c, f, arguments);
    ScanByPasses(q);
    BareMember(op);
    forall d ensures Pass(f, |f|, d) == Leaves(d + Net(f)) {
      PlainPass(f, |f|, d);
      assert f[..|f|] == f;
    }
    PassQualified(c, f, 0);
    if Pass(c + ":", |c| + 1, Net(f)).Leaves? {
      PassQualified(c, f, Pass(c + ":", |c| + 1, Net(f)).depth);
    }
  }

  /** Where the scan of any name stops: in the first pass, or in the second. */
  ghost predicate StopsAt(s: string, p: nat) {
    match Pass(s, |s|, 0)
    case Stops(k) => k == p
    case Leaves(d) => Pass(s, |s|, d) == Stops(p)
  }

  /** For every name: it raises exactly when no pass stops, and it begins with the class found and `::`
      exactly when the stop is at the right colon of a pair. */
  lemma PrefixByPasses(name: string)
    requires Contains(StripArguments(name), "::")
    ensures var s := StripArguments(name);
            && (ClassName(name) == IndexError <==> forall p: nat :: !StopsAt(s, p))
            && (forall p: nat :: StopsAt(s, p) ==>
                  && p < |s| && ClassName(name).Class?
                  && (ClassName(name).name + "::" <= name <==> p > 0 && s[p - 1] == ':'))
  {
    hide Exit, Pass, ClassName, StripArguments, Contains;
    var s := StripArguments(name);
    SomeText(s);
    ClassOf(name);
    ScanByPasses(s);
    PassInside(s, |s|, 0);
    match Pass(s, |s|, 0)
    case Stops(k) =>
      assert StopsAt(s, k);
      PrefixExactly(name);
    case Leaves(d) =>
      PassInside(s, |s|, d);
      if Pass(s, |s|, d).Stops? {
        assert StopsAt(s, Pass(s, |s|, d).p);
        PrefixExactly(name);
      }
  }

  lemma SomeText(s: string)
    requires Contains(s, "::")
    ensures s != ""
  {
  }

  // ---------------------------------------------------------------- the program

  /** getClassName */
  method GetClassName(name: string) returns (r: Outcome)
    ensures r == ClassName(name)
    ensures r == NoClass <==> !HasPair(name)
    ensures r == IndexError <==> Raises(name)
    ensures forall c :: r == Class(c) <==> HasClass(name, c)
  {
    hide HasPair, Raises, HasClass;
    OutcomeExactly(name);
    hide Exit, Jump, Before, CharAt;
    var s := StripArguments(name);
    if !Contains(s, "::") {
      return NoClass;
    }
    var index: int := |s| - 1;
    var depth := 0;
    while true
      invariant index < |s|
      invariant Exit(s, |s| - 1, 0) == Exit(s, index, depth)
      decreases index + |s| + 1
    {
      ExitUnfolds(s, index, depth);
      if index < -|s| {
        return IndexError;
      }
      if CharAt(s, index) == ':' && depth == 0 {
        break;
      }
      var chopped := Before(s, index);
      var j := Jump(chopped);
      if j > 0 {
        index := index - j;
        continue;
      }
      if CharAt(s, index) == '>' {
        depth := depth + 1;
      }
      if CharAt(s, index) == '<' {
        depth := depth - 1;
      }
      index := index - 1;
    }
    index := index - 1;
    return Class(Before(s, index));
  }

  function Inferred(names: seq<string>): (r: seq<Outcome>)
    ensures |r| == |names| && forall i :: 0 <= i < |names| ==> r[i] == ClassName(names[i])
  {
    seq(|names|, i requires 0 <= i < |names| => ClassName(names[i]))
  }

  /** drop_duplicates: the first of equal entries stays. */
  function DropDuplicates(s: seq<Outcome>): (r: seq<Outcome>)
    ensures forall x :: x in r <==> x in s
    ensures forall i, j :: 0 <= i < j < |r| ==> r[i] != r[j]
  {
    if s == [] then []
    else
      var r := DropDuplicates(s[..|s| - 1]);
      if s[|s| - 1] in s[..|s| - 1] then r else r + [s[|s| - 1]]
  }

  /** dropna */
  function DropMissing(s: seq<Outcome>): (r: seq<string>)
    ensures forall c :: c in r <==> Class(c) in s
    ensures (forall i, j :: 0 <= i < j < |s| ==> s[i] != s[j]) ==>
              forall i, j :: 0 <= i < j < |r| ==> r[i] != r[j]
  {
    if s == [] then []
    else
      var r := DropMissing(s[..|s| - 1]);
      if s[|s| - 1].Class? then r + [s[|s| - 1].name] else r
  }

  /** findClasses; one IndexError makes the whole apply raise. */
  function FindClasses(names: seq<string>): (r: Option<seq<string>>)
    ensures r.None? <==> exists i :: 0 <= i < |names| && ClassName(names[i]) == IndexError
    ensures r.Some? ==> forall c :: c in r.value <==> exists i :: 0 <= i < |names| && ClassName(names[i]) == Class(c)
    ensures r.Some? ==> forall i, j :: 0 <= i < j < |r.value| ==> r.value[i] != r.value[j]
  {
    hide ClassName;
    if IndexError in Inferred(names) then None
    else Some(DropMissing(DropDuplicates(Inferred(names))))
  }

  /** filterByName */
  function FilterByName(names: seq<string>, prefix: string): (r: seq<string>)
    ensures forall s :: s in r <==> s in names && prefix <= s
    ensures forall s :: prefix <= s ==> multiset(r)[s] == multiset(names)[s]
  {
    if names == [] then []
    else
      var r := FilterByName(names[..|names| - 1], prefix);
      assert names == names[..|names| - 1] + [names[|names| - 1]];
      if prefix <= names[|names| - 1] then r + [names[|names| - 1]] else r
  }

  datatype Listing = Listing(class_: string, functions: seq<string>)

  ghost predicate Listed(listings: seq<Listing>, c: string) {
    exists k :: 0 <= k < |listings| && listings[k].class_ == c
  }

  /** main: one listing per class found, None when findClasses raises. */
  method ListClasses(names: seq<string>) returns (r: Option<seq<Listing>>)
    ensures r.None? <==> exists i :: 0 <= i < |names| && Raises(names[i])
    ensures r.Some? ==>
              forall c :: Listed(r.value, c) <==> exists i :: 0 <= i < |names| && HasClass(names[i], c)
    ensures r.None? <==> FindClasses(names).None?
    ensures r.Some? ==>
              && FindClasses(names).Some?
              && |r.value| == |FindClasses(names).value|
              && forall i :: 0 <= i < |r.value| ==>
                   r.value[i] == Listing(FindClasses(names).value[i],
                                         FilterByName(names, FindClasses(names).value[i] + "::"))
  {
    hide ClassName, DropDuplicates, DropMissing, FilterByName, Raises, HasClass;
    FindsExactly(names);
    var inferred := [];
    for i := 0 to |names|
      invariant inferred == Inferred(names[..i])
    {
      var c := GetClassName(names[i]);
      inferred := inferred + [c];
    }
    assert names[..|names|] == names;
    if IndexError in inferred {
      return None;
    }
    var classes := DropMissing(DropDuplicates(inferred));
    var listings := [];
    for i := 0 to |classes|
      invariant |listings| == i
      invariant forall k :: 0 <= k < i ==>
                  listings[k] == Listing(classes[k], FilterByName(names, classes[k] + "::"))
    {
      listings := listings + [Listing(classes[i], FilterByName(names, classes[i] + "::"))];
    }
    forall c ensures Listed(listings, c) <==> c in classes {
      if k :| 0 <= k < |classes| && classes[k] == c {
        assert listings[k].class_ == c;
      }
    }
    return Some(listings);
  }

  // ---------------------------------------------------------------- which names have a class at all

  /** Two adjacent colons at i, left of the last opening parenthesis if the name has one. */
  ghost predicate PairAt(name: string, i: int) {
    0 <= i < |name| - 1 && name[i] == ':' && name[i + 1] == ':' && ('(' in name ==> '(' in name[i + 2..])
  }

  ghost predicate HasPair(name: string) {
    exists i :: PairAt(name, i)
  }

  lemma PairExactly(name: string)
    ensures Contains(StripArguments(name), "::") <==> HasPair(name)
  {
    var s := StripArguments(name);
    if i :| PairAt(name, i) {
      if '(' in name {
        var k :| 0 <= k < |name[i + 2..]| && name[i + 2..][k] == '(';
        assert name[i + 2 + k] == '(';
      }
      Separated(s, i);
    }
    if i :| 0 <= i <= |s| && At(s, "::", i) {
      PairThere(s, i);
      assert '(' in name ==> name[i + 2..][|s| - i - 2] == '(';
      assert PairAt(name, i);
    }
  }

  lemma PairThere(s: string, i: int)
    requires At(s, "::", i)
    ensures i + 2 <= |s| && s[i] == ':' && s[i + 1] == ':'
  {
    var part := s[i..i + 2];
    assert part[0] == s[i] && part[1] == s[i + 1];
  }

  /** The class of a name whose scan stops at p: the text up to two places left of the stop. Python's
      negative bounds show when the stop is at the very front: the first pass then drops the last
      character, the second one everything. */
  function CutAt(s: string, p: nat): string
    requires p < |s|
  {
    if p > 0 then s[..p - 1]
    else if Pass(s, |s|, 0).Stops? then s[..|s| - 1]
    else ""
  }

  /** The subscript raises on this name: it has a pair, and no pass over it stops. */
  ghost predicate Raises(name: string) {
    HasPair(name) && forall p: nat :: !StopsAt(StripArguments(name), p)
  }

  /** The class found for this name: it has a pair, and the scan stops where this is cut off. */
  ghost predicate HasClass(name: string, c: string) {
    HasPair(name) && exists p: nat :: p < |StripArguments(name)| && StopsAt(StripArguments(name), p) &&
                                      CutAt(StripArguments(name), p) == c
  }

  /** Every outcome, for every name: none without a pair of colons, an error if there is a pair and the
      scan does not stop, and otherwise the text left of where it stops. */
  lemma OutcomeExactly(name: string)
    ensures ClassName(name) == NoClass <==> !HasPair(name)
    ensures ClassName(name) == IndexError <==> Raises(name)
    ensures forall c :: ClassName(name) == Class(c) <==> HasClass(name, c)
  {
    hide Exit, Pass, ClassName, StripArguments, Contains, HasPair, StopsAt, Before, CutAt;
    var s := StripArguments(name);
    PairExactly(name);
    if HasPair(name) {
      SomeText(s);
      ClassOf(name);
      ScanByPasses(s);
      StopUnique(s);
      if p: nat :| StopsAt(s, p) {
        StopCuts(s, p);
      }
    } else {
      NoPairNoClass(name);
    }
  }

  lemma NoPairNoClass(name: string)
    requires !Contains(StripArguments(name), "::")
    ensures ClassName(name) == NoClass
  {
    hide Contains, Exit, StripArguments;
  }

  lemma StopUnique(s: string)
    ensures forall p: nat, q: nat :: StopsAt(s, p) && StopsAt(s, q) ==> p == q
    ensures s != "" && (forall p: nat :: !StopsAt(s, p)) ==> Exit(s, |s| - 1, 0) == None
  {
    hide Exit, Pass;
    if s != "" {
      ScanByPasses(s);
      assert match Pass(s, |s|, 0)
             case Stops(p) => StopsAt(s, p)
             case Leaves(d) =>
               match Pass(s, |s|, d)
               case Stops(p) => StopsAt(s, p)
               case Leaves(_) => true;
    }
  }

  lemma StopCuts(s: string, p: nat)
    requires s != "" && StopsAt(s, p)
    ensures p < |s| && Exit(s, |s| - 1, 0).Some?
    ensures Before(s, Exit(s, |s| - 1, 0).value - 1) == CutAt(s, p)
  {
    hide Exit, Pass;
    ScanByPasses(s);
    PassInside(s, |s|, 0);
    if Pass(s, |s|, 0).Leaves? {
      PassInside(s, |s|, Pass(s, |s|, 0).depth);
    }
  }

  /** For every table of names: the program lists nothing exactly when some name has a pair of colons and
      its scan does not stop; otherwise it lists the classes of the names that have a pair, each once.
      Names without a pair never matter. */
  lemma FindsExactly(names: seq<string>)
    ensures FindClasses(names).None? <==> exists i :: 0 <= i < |names| && Raises(names[i])
    ensures FindClasses(names).Some? ==>
              forall c :: c in FindClasses(names).value <==> exists i :: 0 <= i < |names| && HasClass(names[i], c)
  {
    hide FindClasses, ClassName, Raises, HasClass, HasPair;
    forall i | 0 <= i < |names|
      ensures ClassName(names[i]) == IndexError <==> Raises(names[i])
      ensures forall c :: ClassName(names[i]) == Class(c) <==> HasClass(names[i], c)
    {
      OutcomeExactly(names[i]);
    }
  }

  /** Classes are listed in the order in which names that have them first come. */
  lemma FindsInOrder(names: seq<string>, a: nat, b: nat)
    requires FindClasses(names).Some? && a < b < |FindClasses(names).value|
    ensures exists i :: 0 <= i < |names| && HasClass(names[i], FindClasses(names).value[a]) &&
                        forall k :: 0 <= k <= i ==> !HasClass(names[k], FindClasses(names).value[b])
  {
    hide ClassName, HasClass, Raises;
    var classes := FindClasses(names).value;
    var s := Inferred(names);
    ClassesInOrder(s, a, b);
    var i :| 0 <= i < |s| && s[i] == Class(classes[a]) && forall k :: 0 <= k <= i ==> s[k] != Class(classes[b]);
    forall k | 0 <= k < |names| ensures forall c :: ClassName(names[k]) == Class(c) <==> HasClass(names[k], c) {
      OutcomeExactly(names[k]);
    }
    assert HasClass(names[i], classes[a]);
    forall k | 0 <= k <= i ensures !HasClass(names[k], classes[b]) {
      assert s[k] == ClassName(names[k]);
    }
  }

  lemma ClassesInOrder(s: seq<Outcome>, a: nat, b: nat)
    requires a < b < |DropMissing(DropDuplicates(s))|
    ensures var cs := DropMissing(DropDuplicates(s));
            exists i :: 0 <= i < |s| && s[i] == Class(cs[a]) && forall k :: 0 <= k <= i ==> s[k] != Class(cs[b])
  {
    hide DropMissing, DropDuplicates;
    var t := DropDuplicates(s);
    var i, j := MissingOrder(t, a, b);
    DuplicatesOrder(s, i, j);
  }

  lemma {:induction false} MissingOrder(t: seq<Outcome>, a: nat, b: nat) returns (i: nat, j: nat)
    requires a < b < |DropMissing(t)|
    ensures i < j < |t| && t[i] == Class(DropMissing(t)[a]) && t[j] == Class(DropMissing(t)[b])
  {
    var n := |t| - 1;
    if b < |DropMissing(t[..n])| {
      i, j := MissingOrder(t[..n], a, b);
    } else {
      assert DropMissing(t)[a] in DropMissing(t[..n]);
      j := n;
      i :| 0 <= i < n && t[i] == Class(DropMissing(t)[a]);
    }
  }

  lemma {:induction false} DuplicatesOrder(s: seq<Outcome>, a: nat, b: nat)
    requires a < b < |DropDuplicates(s)|
    ensures exists i :: 0 <= i < |s| && s[i] == DropDuplicates(s)[a] && forall k :: 0 <= k <= i ==> s[k] != DropDuplicates(s)[b]
  {
    var n := |s| - 1;
    var r, t := DropDuplicates(s), DropDuplicates(s[..n]);
    if b < |t| {
      DuplicatesOrder(s[..n], a, b);
      var i :| 0 <= i < n && s[..n][i] == t[a] && forall k :: 0 <= k <= i ==> s[..n][k] != t[b];
      assert s[i] == r[a] && forall k :: 0 <= k <= i ==> s[k] == s[..n][k];
    } else {
      assert t[a] in t;
      var i :| 0 <= i < n && s[i] == t[a];
      assert forall k :: 0 <= k <= i ==> s[k] in s[..n];
    }
  }

  /** A listing keeps the order of the table. */
  lemma {:induction false} FilterConcat(a: seq<string>, b: seq<string>, prefix: string)
    ensures FilterByName(a + b, prefix) == FilterByName(a, prefix) + FilterByName(b, prefix)
  {
    if b == [] {
      assert a + b == a;
    } else {
      FilterConcat(a, b[..|b| - 1], prefix);
      assert (a + b)[..|a + b| - 1] == a + b[..|b| - 1];
    }
  }

  /** A class is listed exactly once, and its listing holds a function it was inferred for, as often
      as that function occurs in the table, exactly when the scan of the function's name stopped at
      the right colon of a pair. */
  lemma ListingExactly(names: seq<string>, i: nat, c: string)
    requires i < |names| && ClassName(names[i]) == Class(c) && FindClasses(names).Some?
    ensures c in FindClasses(names).value
    ensures forall j, k :: 0 <= j < k < |FindClasses(names).value| ==>
              FindClasses(names).value[j] != FindClasses(names).value[k]
    ensures var s := StripArguments(names[i]); var listed := multiset(FilterByName(names, c + "::"))[names[i]];
            && s != [] && Exit(s, |s| - 1, 0).Some?
            && listed == if AtPair(s, Exit(s, |s| - 1, 0).value) then multiset(names)[names[i]] else 0
  {
    hide ClassName, Exit, AtPair, StripArguments, FindClasses;
    PrefixExactly(names[i]);
    var r := FilterByName(names, c + "::");
    assert !(c + "::" <= names[i]) ==> names[i] !in r;
  }

  /** So it does for all names with paired colons. */
  lemma ListingComplete(names: seq<string>, i: nat, c: string)
    requires i < |names| && ColonsPaired(names[i])
    requires ClassName(names[i]) == Class(c)
    requires FindClasses(names).Some?
    ensures exists k :: 0 <= k < |FindClasses(names).value| && FindClasses(names).value[k] == c
    ensures forall j, k :: 0 <= j < k < |FindClasses(names).value| ==>
              FindClasses(names).value[j] != FindClasses(names).value[k]
    ensures names[i] in FilterByName(names, c + "::")
    ensures multiset(FilterByName(names, c + "::"))[names[i]] == multiset(names)[names[i]]
  {
    hide ClassName, Exit, AtPair, StripArguments, FindClasses, ColonsPaired;
    ListingExactly(names, i, c);
    ClassIsPrefix(names[i]);
  }

  /** The name of an Objective-C++ method with an unnamed parameter is cut at the single colon of its
      last one, and the method is missing from the listing of the class so found. */
  lemma UnpairedColonIsLost()
    ensures ClassName("-[Box put::at:]") == Class("-[Box put::a")
    ensures "-[Box put::at:]" !in FilterByName(["-[Box put::at:]"], "-[Box put::a" + "::")
  {
    hide *;
    var s := "-[Box put::at:]";
    CutAtLastColon();
    assert s[12] != ("-[Box put::a" + "::")[12];
  }

  lemma CutAtLastColon()
    ensures ClassName("-[Box put::at:]") == Class("-[Box put::a")
  {
    hide StripArguments, Contains, Exit, Jump;
    var s := "-[Box put::at:]";
    assert StripArguments(s) == s;
    Separated(s, 9);
    NoJumpAfter(s[..14]);
    OneStep(s, 14, 0, 0);
    OneStep(s, 13, 0, 0);
    ClassOf(s);
    assert s[..12] == "-[Box put::a";
  }
}
