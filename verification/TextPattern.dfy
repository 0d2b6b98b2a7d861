/** The regular expressions of the GUI core (1541hud/gui/hud_core_v030.py): literals,
greedy runs of a character class, and word boundaries, searched leftmost with
backtracking as Python's re module does. */
module TextPattern {
  import opened Wrappers

  datatype Class = Space | Digit | Hex | Version | Letter(a: char, b: char)

  predicate In(c: char, cls: Class) {
    match cls
    case Space => c == ' ' || '\t' <= c <= '\r' || 28 as char <= c <= 31 as char
    case Digit => '0' <= c <= '9'
    case Hex => '0' <= c <= '9' || 'a' <= c <= 'f' || 'A' <= c <= 'F'
    case Version => '0' <= c <= '9' || c == '.'
    case Letter(a, b) => c == a || c == b
  }

  predicate IsWord(c: char) {
    'a' <= c <= 'z' || 'A' <= c <= 'Z' || '0' <= c <= '9' || c == '_'
  }

  datatype Atom =
    | Lit(text: string)
    | One(cls: Class)
    | Run(cls: Class, capture: bool)
    | Boundary

  predicate At(s: string, i: nat, text: string) {
    i + |text| <= |s| && s[i..i + |text|] == text
  }

  predicate AtBoundary(s: string, i: nat)
    requires i <= |s|
  {
    (i > 0 && IsWord(s[i - 1])) != (i < |s| && IsWord(s[i]))
  }

  /** The end of the longest run of a class from i. */
  function RunEnd(cls: Class, s: string, i: nat): (e: nat)
    requires i <= |s|
    ensures i <= e <= |s|
    ensures forall k :: i <= k < e ==> In(s[k], cls)
    ensures e < |s| ==> !In(s[e], cls)
    decreases |s| - i
  {
    if i < |s| && In(s[i], cls) then RunEnd(cls, s, i + 1) else i
  }

  /** The captures of a match at i, if there is one. */
  function MatchAt(p: seq<Atom>, s: string, i: nat): Option<seq<string>>
    requires i <= |s|
    decreases |p|, |s| + 1
  {
    if p == [] then Some([])
    else
      match p[0]
      case Lit(text) => if At(s, i, text) then MatchAt(p[1..], s, i + |text|) else None
      case One(cls) => if i < |s| && In(s[i], cls) then MatchAt(p[1..], s, i + 1) else None
      case Boundary => if AtBoundary(s, i) then MatchAt(p[1..], s, i) else None
      case Run(cls, _) => TryRun(p, s, i, RunEnd(cls, s, i))
  }

  /** The longest run first, then shorter ones, but never an empty one. */
  function TryRun(p: seq<Atom>, s: string, i: nat, e: nat): Option<seq<string>>
    requires p != [] && p[0].Run? && i <= e <= |s|
    decreases |p|, e
  {
    if e == i then None
    else
      var rest := MatchAt(p[1..], s, e);
      if rest.Some? then Some(if p[0].capture then [s[i..e]] + rest.value else rest.value)
      else TryRun(p, s, i, e - 1)
  }

  function SearchFrom(p: seq<Atom>, s: string, i: nat): Option<seq<string>>
    requires i <= |s|
    decreases |s| - i
  {
    var m := MatchAt(p, s, i);
    if m.Some? then m else if i == |s| then None else SearchFrom(p, s, i + 1)
  }

  /** re.search */
  function Search(p: seq<Atom>, s: string): Option<seq<string>> {
    SearchFrom(p, s, 0)
  }

  // ---------------------------------------------------------------------
  // Lines that cannot match
  // ---------------------------------------------------------------------

  lemma {:induction false} NoMatchAt(p: seq<Atom>, s: string, i: nat, k: nat, c: char)
    requires i <= |s| && k < |p| && p[k].Lit? && c in p[k].text && c !in s
    ensures MatchAt(p, s, i) == None
    decreases k, |s| + 1
  {
    match p[0]
    case Lit(text) =>
      if At(s, i, text) {
        if k == 0 {
          LiteralIn(s, i, text, c);
        } else {
          NoMatchAt(p[1..], s, i + |text|, k - 1, c);
        }
      }
    case One(cls) =>
      if i < |s| && In(s[i], cls) {
        NoMatchAt(p[1..], s, i + 1, k - 1, c);
      }
    case Boundary =>
      NoMatchAt(p[1..], s, i, k - 1, c);
    case Run(cls, _) =>
      NoRun(p, s, i, RunEnd(cls, s, i), k, c);
  }

  lemma LiteralIn(s: string, i: nat, text: string, c: char)
    requires At(s, i, text)
    ensures c in text ==> c in s
  {
    if c in text {
      var j :| 0 <= j < |text| && text[j] == c;
      assert s[i..i + |text|][j] == s[i + j];
    }
  }

  lemma {:induction false} NoRun(p: seq<Atom>, s: string, i: nat, e: nat, k: nat, c: char)
    requires p != [] && p[0].Run? && i <= e <= |s|
    requires 0 < k < |p| && p[k].Lit? && c in p[k].text && c !in s
    ensures TryRun(p, s, i, e) == None
    decreases k, e
  {
    if e != i {
      NoMatchAt(p[1..], s, e, k - 1, c);
      NoRun(p, s, i, e - 1, k, c);
    }
  }

  lemma {:induction false} NoMatchFrom(p: seq<Atom>, s: string, i: nat, k: nat, c: char)
    requires i <= |s| && k < |p| && p[k].Lit? && c in p[k].text && c !in s
    ensures SearchFrom(p, s, i) == None
    decreases |s| - i
  {
    NoMatchAt(p, s, i, k, c);
    if i < |s| {
      NoMatchFrom(p, s, i + 1, k, c);
    }
  }

  lemma LackingNeverFound(p: seq<Atom>, s: string, k: nat, c: char)
    requires k < |p| && p[k].Lit? && c in p[k].text && c !in s
    ensures Search(p, s) == None
  {
    NoMatchFrom(p, s, 0, k, c);
  }

  // ---------------------------------------------------------------------
  // Lines that do
  // ---------------------------------------------------------------------

  /** A part that an atom takes. */
  predicate Takes(a: Atom, part: string) {
    match a
    case Lit(text) => part == text
    case One(cls) => |part| == 1 && In(part[0], cls)
    case Boundary => false
    case Run(cls, _) => part != "" && forall k :: 0 <= k < |part| ==> In(part[k], cls)
  }

  /** Wherever s ends a line, the pattern matches it there with these captures. */
  ghost predicate Reads(p: seq<Atom>, s: string, captured: seq<string>) {
    forall t: string :: MatchAt(p, t + s, |t|) == Some(captured)
  }

  lemma ReadsNothing()
    ensures Reads([], "", [])
  {
  }

  lemma {:induction false} RunEndIs(cls: Class, s: string, i: nat, part: string, rest: string)
    requires i <= |s| && s[i..] == part + rest
    requires forall k :: 0 <= k < |part| ==> In(part[k], cls)
    requires rest == "" || !In(rest[0], cls)
    ensures RunEnd(cls, s, i) == i + |part|
    decreases |part|
  {
    assert |s| == i + |part| + |rest|;
    if part != "" {
      assert s[i] == s[i..][0] == part[0];
      assert s[i + 1..] == s[i..][1..] == part[1..] + rest;
      RunEndIs(cls, s, i + 1, part[1..], rest);
    } else if rest != "" {
      assert s[i] == s[i..][0] == rest[0];
    }
  }

  /** One more atom in front, taking one more part: a run takes all of its part, which
      it must, as what follows is not of its class. */
  lemma ReadsMore(a: Atom, part: string, p: seq<Atom>, s: string, captured: seq<string>)
    requires Reads(p, s, captured) && Takes(a, part)
    requires a.Run? ==> s == "" || !In(s[0], a.cls)
    ensures Reads([a] + p, part + s, (if a.Run? && a.capture then [part] else []) + captured)
  {
    var q, whole := [a] + p, (if a.Run? && a.capture then [part] else []) + captured;
    forall t: string ensures MatchAt(q, t + (part + s), |t|) == Some(whole) {
      MatchesMore(a, part, p, s, captured, t);
    }
  }

  lemma MatchesMore(a: Atom, part: string, p: seq<Atom>, s: string, captured: seq<string>, t: string)
    requires Reads(p, s, captured) && Takes(a, part)
    requires a.Run? ==> s == "" || !In(s[0], a.cls)
    ensures MatchAt([a] + p, t + (part + s), |t|)
            == Some((if a.Run? && a.capture then [part] else []) + captured)
  {
    hide Reads;
    var u, j := t + (part + s), |t| + |part|;
    assert u == (t + part) + s && |t + part| == j;
    assert MatchAt(p, u, j) == Some(captured) by {
      UseReads(p, s, captured, t + part);
    }
    assert ([a] + p)[1..] == p && [] + captured == captured;
    assert u[|t|..] == part + s && u[|t|..j] == part;
    if a.Run? {
      RunEndIs(a.cls, u, |t|, part, s);
    } else if a.One? {
      assert u[|t|] == part[0];
    }
  }

  lemma UseReads(p: seq<Atom>, s: string, captured: seq<string>, t: string)
    requires Reads(p, s, captured)
    ensures MatchAt(p, t + s, |t|) == Some(captured)
  {
  }

  lemma ReadsFound(p: seq<Atom>, s: string, captured: seq<string>)
    requires Reads(p, s, captured)
    ensures Search(p, s) == Some(captured)
  {
    UseReads(p, s, captured, "");
    assert "" + s == s;
  }
}
