/**
 * Stripping components off the end of a path. A "." does not count as a component, and a ".." asks
 * for one more to be stripped. The delimiter is the one of systems other than Windows.
 */
module ParentDir {
  const DELIM := '/'

  // -- The loop as a function -----------------------------------------------------------

  /** The string without the delimiters at its end. */
  function Trimmed(s: string): (t: string)
    ensures t <= s && (t != "" ==> t[|t| - 1] != DELIM)
    ensures forall i :: |t| <= i < |s| ==> s[i] == DELIM
  {
    if |s| > 0 && s[|s| - 1] == DELIM then Trimmed(s[..|s| - 1]) else s
  }

  /** Where the part after the last delimiter starts. */
  function ElemStart(s: string): (e: nat)
    ensures e <= |s| && (e > 0 ==> s[e - 1] == DELIM)
    ensures forall i :: e <= i < |s| ==> s[i] != DELIM
  {
    if |s| == 0 || s[|s| - 1] == DELIM then |s| else ElemStart(s[..|s| - 1])
  }

  /** What a component adds to the number still to be removed. */
  function Extra(elem: string): nat {
    if elem == "." then 1 else if elem == ".." then 2 else 0
  }

  function Final(s: string): string {
    if Trimmed(s) == "" then [DELIM] else Trimmed(s)
  }

  function Parent(s: string, n: nat): string
    decreases |s|
  {
    if n == 0 then Final(s)
    else
      var t := Trimmed(s);
      if t == "" then [DELIM]
      else
        var e := ElemStart(t);
        if e == 0 then Final(t) else Parent(t[..e], n - 1 + Extra(t[e..]))
  }

  lemma ParentRound(s: string, n: nat)
    requires n > 0
    ensures var t := Trimmed(s);
            var e := ElemStart(t);
            Parent(s, n) == if t == "" then [DELIM]
                            else if e == 0 then Final(t)
                            else Parent(t[..e], n - 1 + Extra(t[e..]))
  {
    hide Trimmed, ElemStart, Final, Extra;
  }

  lemma ParentEnd(s: string)
    ensures Parent(s, 0) == if Trimmed(s) == "" then [DELIM] else Trimmed(s)
  {
    hide Trimmed;
  }

  /** Although "." and ".." raise the counter, every round shortens the path. */
  method GetParentDir(path: string, level: nat) returns (result: string)
    ensures result == Parent(path, level)
  {
    hide Trimmed, ElemStart, Parent;
    result := path;
    var toRemove := level;
    while toRemove > 0
      invariant Parent(result, toRemove) == Parent(path, level)
      decreases |result|
    {
      ParentRound(result, toRemove);
      toRemove := toRemove - 1;
      var trimmed := Trimmed(result);
      if |trimmed| > 0 {
        result := trimmed;
      } else {
        return [DELIM];
      }
      var elem := result[ElemStart(result)..];
      if |elem| == 0 || |elem| == |result| {
        TrimmedStays(result);
        break;
      }
      if elem == "." {
        toRemove := toRemove + 1;
      }
      if elem == ".." {
        toRemove := toRemove + 2;
      }
      result := result[..|result| - |elem|];
    }
    ParentEnd(result);
    var trimmed := Trimmed(result);
    if |trimmed| > 0 {
      result := trimmed;
    } else {
      return [DELIM];
    }
  }

  // -- What it means --------------------------------------------------------------------

  lemma TrimmedStays(s: string)
    requires s == "" || s[|s| - 1] != DELIM
    ensures Trimmed(s) == s
  {
  }

  lemma {:induction false} PrefixOrRoot(s: string, n: nat)
    ensures Parent(s, n) <= s || Parent(s, n) == [DELIM]
    decreases |s|
  {
    if n > 0 {
      var t := Trimmed(s);
      var e := ElemStart(t);
      if t != "" && e > 0 {
        PrefixOrRoot(t[..e], n - 1 + Extra(t[e..]));
      }
    }
  }

  lemma RootStays(n: nat)
    ensures Parent([DELIM], n) == [DELIM]
  {
    assert Trimmed([DELIM]) == "";
  }

  /** Delimiters at the end make no difference. */
  lemma FinalSame(s: string, n: nat)
    ensures Parent(Final(s), n) == Parent(s, n)
  {
    var t := Trimmed(s);
    TrimmedStays(t);
    RootStays(n);
  }

  lemma OneComponent(t: string, n: nat)
    requires t != "" && Trimmed(t) == t && ElemStart(t) == 0
    ensures Parent(t, n) == Final(t)
  {
  }

  /** Stripping a + b levels is stripping a levels and then b. */
  lemma {:induction false} Composes(s: string, a: nat, b: nat)
    ensures Parent(s, a + b) == Parent(Parent(s, a), b)
    decreases |s|
  {
    hide Trimmed, ElemStart, Final, Extra;
    var t := Trimmed(s);
    var e := ElemStart(t);
    if a == 0 {
      FinalSame(s, b);
    } else if t == "" {
      RootStays(b);
    } else if e == 0 {
      TrimmedStays(t);
      FinalSame(t, b);
      assert Parent(t, b) == Final(t) by {
        OneComponent(t, b);
      }
    } else {
      Composes(t[..e], a - 1 + Extra(t[e..]), b);
    }
  }

  // -- In terms of components -----------------------------------------------------------

  predicate Absolute(s: string) {
    |s| > 0 && s[0] == DELIM
  }

  function Components(s: string): seq<string>
    decreases |s|
  {
    var t := Trimmed(s);
    if t == "" then []
    else
      var e := ElemStart(t);
      Components(t[..e]) + [t[e..]]
  }

  /** Stripping on components: "." counts for nothing, ".." for one more, and a relative path keeps
      its first component. */
  function Strip(parts: seq<string>, n: nat, absolute: bool): seq<string>
    decreases |parts|
  {
    if n == 0 || |parts| == 0 || (|parts| == 1 && !absolute) then parts
    else
      var most, last := parts[..|parts| - 1], parts[|parts| - 1];
      Strip(most, if last == "." then n else if last == ".." then n + 1 else n - 1, absolute)
  }

  lemma FinalComponents(s: string)
    ensures Components(Final(s)) == Components(s)
  {
    TrimmedStays(Trimmed(s));
    assert Trimmed([DELIM]) == "";
  }

  lemma StripLast(parts: seq<string>, last: string, n: nat, absolute: bool)
    requires n > 0 && (parts == [] ==> absolute)
    ensures Strip(parts + [last], n, absolute) == Strip(parts, n - 1 + Extra(last), absolute)
  {
    var all := parts + [last];
    assert all[..|all| - 1] == parts && all[|all| - 1] == last;
  }

  lemma StripOnly(part: string, n: nat)
    ensures Strip([part], n, false) == [part]
  {
  }

  /** One round, on the path and on its components. */
  lemma Round(s: string, n: nat)
    requires n > 0 && Trimmed(s) != ""
    ensures var t := Trimmed(s);
            var e := ElemStart(t);
            && e < |t| && Absolute(t) == Absolute(s)
            && Parent(s, n) == (if e == 0 then Final(t) else Parent(t[..e], n - 1 + Extra(t[e..])))
            && Components(s) == Components(t[..e]) + [t[e..]]
            && (e > 0 ==> Absolute(t[..e]) == Absolute(s))
            && (e > 0 && Components(t[..e]) == [] ==> Absolute(s))
            && (e == 0 ==> !Absolute(s))
  {
    hide Trimmed, ElemStart, Final, Extra;
    var t := Trimmed(s);
    NoneMeansRoot(t[..ElemStart(t)]);
  }

  /** The path left by every call has the components that are left by stripping them one by one. */
  lemma {:induction false} ParentComponents(s: string, n: nat)
    ensures Components(Parent(s, n)) == Strip(Components(s), n, Absolute(s))
    decreases |s|
  {
    hide Parent, Trimmed, ElemStart, Final, Components, Strip, Extra, Absolute;
    var t := Trimmed(s);
    if n == 0 || t == "" {
      Ended(s, n);
    } else {
      var e := ElemStart(t);
      Round(s, n);
      if e == 0 {
        RootHasNone();
        assert t[..0] == "" && t[0..] == t && [] + [t] == [t];
        TrimmedStays(t);
        FinalComponents(t);
        FinalComponents(s);
        OneLeft(t);
        StripOnly(t, n);
      } else {
        ParentComponents(t[..e], n - 1 + Extra(t[e..]));
        StripLast(Components(t[..e]), t[e..], n, Absolute(s));
      }
    }
  }

  lemma Ended(s: string, n: nat)
    requires n == 0 || Trimmed(s) == ""
    ensures Components(Parent(s, n)) == Strip(Components(s), n, Absolute(s))
  {
    FinalComponents(s);
    RootHasNone();
  }

  lemma OneLeft(t: string)
    requires t != "" && Trimmed(t) == t && ElemStart(t) == 0
    ensures Components(t) == [t]
  {
    RootHasNone();
    assert t[..0] == "" && t[0..] == t;
  }

  lemma RootHasNone()
    ensures Components([DELIM]) == [] && Components("") == []
  {
    assert Trimmed([DELIM]) == "";
  }

  lemma NoneMeansRoot(s: string)
    ensures s != "" && Components(s) == [] ==> Absolute(s)
  {
  }
}
