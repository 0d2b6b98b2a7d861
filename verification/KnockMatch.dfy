/** Knock detection (OneROM/firmware/src/piodma/pioplugin.c): a sequence of accesses
that a plugin waits for in the stream of captured addresses. */
module KnockMatch {

  // ---------------------------------------------------------------------
  // The matcher, on the masked entries alone
  // ---------------------------------------------------------------------

  /** After a mismatch the matcher remembers at most the entry it just read. */
  function Advance(knock: seq<nat>, pos: nat, v: nat): nat
    requires pos < |knock|
  {
    if v == knock[pos] then pos + 1 else if v == knock[0] then 1 else 0
  }

  /** How much of the knock the matcher has seen; it stops at the whole of it. */
  function Position(knock: seq<nat>, vs: seq<nat>): (pos: nat)
    requires knock != []
    ensures pos <= |knock|
  {
    if vs == [] then 0
    else
      var pos := Position(knock, vs[..|vs| - 1]);
      if pos == |knock| then pos else Advance(knock, pos, vs[|vs| - 1])
  }

  predicate EndsWith(vs: seq<nat>, suffix: seq<nat>) {
    |suffix| <= |vs| && vs[|vs| - |suffix|..] == suffix
  }

  predicate Occurs(knock: seq<nat>, vs: seq<nat>) {
    exists n :: 0 <= n <= |vs| && EndsWith(vs[..n], knock)
  }

  /** The matcher reaches the end of the knock exactly on this entry. */
  predicate DetectsNow(knock: seq<nat>, vs: seq<nat>)
    requires knock != []
  {
    vs != [] && Position(knock, vs) == |knock| && Position(knock, vs[..|vs| - 1]) < |knock|
  }

  lemma AlwaysEndsWith(vs: seq<nat>, none: seq<nat>)
    ensures none == [] ==> EndsWith(vs, none)
  {
  }

  lemma {:induction false} PositionIsSuffix(knock: seq<nat>, vs: seq<nat>)
    requires knock != []
    ensures Position(knock, vs) < |knock| || DetectsNow(knock, vs) ==> EndsWith(vs, knock[..Position(knock, vs)])
  {
    hide EndsWith;
    AlwaysEndsWith(vs, knock[..0]);
    if vs != [] {
      var n := |vs| - 1;
      PositionIsSuffix(knock, vs[..n]);
      var p := Position(knock, vs[..n]);
      assert vs[..n] + [vs[n]] == vs;
      if p < |knock| {
        EndsWithSnoc(knock, vs[..n], vs[n], p + 1);
        EndsWithSnoc(knock, vs[..n], vs[n], 1);
      }
      AlwaysEndsWith(vs, knock[..0]);
      AlwaysEndsWith(vs[..n], knock[..0]);
    }
  }

  /** Sound: on detection the last entries are the knock, in order. */
  lemma DetectionIsSound(knock: seq<nat>, vs: seq<nat>)
    requires knock != [] && DetectsNow(knock, vs)
    ensures EndsWith(vs, knock)
  {
    PositionIsSuffix(knock, vs);
    assert knock[..|knock|] == knock;
  }

  /** Every value that can follow a shorter match inside the knock is the one that
      follows the longer: a mismatch then never throws away a match in progress. */
  predicate NoLostBorder(knock: seq<nat>) {
    forall b, k :: 1 <= b < k < |knock| && Border(knock, b, k) ==> knock[b] == knock[k]
  }

  predicate Border(knock: seq<nat>, b: nat, k: nat)
    requires b <= k <= |knock|
  {
    knock[..b] == knock[k - b..k]
  }

  /** The longest start of the knock that the entries end with. */
  predicate Longest(knock: seq<nat>, vs: seq<nat>, p: nat) {
    && p <= |knock| && EndsWith(vs, knock[..p])
    && forall q :: p < q <= |knock| ==> !EndsWith(vs, knock[..q])
  }

  lemma EndsWithSnoc(knock: seq<nat>, vs: seq<nat>, v: nat, q: nat)
    requires 1 <= q <= |knock|
    ensures EndsWith(vs + [v], knock[..q]) <==> knock[q - 1] == v && EndsWith(vs, knock[..q - 1])
  {
    var ws := vs + [v];
    assert knock[..q] == knock[..q - 1] + [knock[q - 1]];
    if q <= |ws| {
      assert ws[|ws| - q..] == vs[|vs| - (q - 1)..] + [v];
    }
  }

  /** Two starts of the knock that the same entries end with are a border. */
  lemma SuffixesNest(knock: seq<nat>, vs: seq<nat>, b: nat, k: nat)
    requires b <= k <= |knock| && EndsWith(vs, knock[..b]) && EndsWith(vs, knock[..k])
    ensures Border(knock, b, k)
  {
    var n := |vs|;
    assert vs[n - b..] == vs[n - k..][k - b..];
    assert knock[..k][k - b..] == knock[k - b..k];
  }

  lemma AdvanceKeepsLongest(knock: seq<nat>, vs: seq<nat>, v: nat, pos: nat)
    requires knock != [] && NoLostBorder(knock) && pos < |knock| && Longest(knock, vs, pos)
    ensures Longest(knock, vs + [v], Advance(knock, pos, v))
  {
    var p' := Advance(knock, pos, v);
    if p' > 0 {
      assert p' == 1 ==> EndsWith(vs, knock[..0]);
      EndsWithSnoc(knock, vs, v, p');
    }
    forall q | p' < q <= |knock| ensures !EndsWith(vs + [v], knock[..q]) {
      EndsWithSnoc(knock, vs, v, q);
      if EndsWith(vs + [v], knock[..q]) && q - 1 <= pos {
        SuffixesNest(knock, vs, q - 1, pos);
      }
    }
  }

  lemma {:induction false} PositionIsLongest(knock: seq<nat>, vs: seq<nat>)
    requires knock != [] && NoLostBorder(knock)
    ensures !Occurs(knock, vs) ==> Longest(knock, vs, Position(knock, vs)) && Position(knock, vs) < |knock|
    ensures Occurs(knock, vs) ==> Position(knock, vs) == |knock|
  {
    assert knock[..|knock|] == knock;
    if vs != [] {
      var n := |vs| - 1;
      PositionIsLongest(knock, vs[..n]);
      OccursSnoc(knock, vs[..n], vs[n]);
      assert vs[..n] + [vs[n]] == vs;
      if !Occurs(knock, vs[..n]) {
        AdvanceKeepsLongest(knock, vs[..n], vs[n], Position(knock, vs[..n]));
      }
    }
  }

  lemma OccursSnoc(knock: seq<nat>, vs: seq<nat>, v: nat)
    ensures Occurs(knock, vs + [v]) <==> Occurs(knock, vs) || EndsWith(vs + [v], knock)
  {
    var ws := vs + [v];
    assert forall n :: 0 <= n <= |vs| ==> ws[..n] == vs[..n];
    assert ws[..|ws|] == ws;
    if Occurs(knock, vs) {
      var n :| 0 <= n <= |vs| && EndsWith(vs[..n], knock);
      assert EndsWith(ws[..n], knock);
    }
    if EndsWith(ws, knock) {
      assert EndsWith(ws[..|ws|], knock);
    }
  }

  /** With a mismatch value that continues a border, the matcher goes past an
      occurrence: the knock up to k, then the knock from b on. */
  function Missed(knock: seq<nat>, b: nat, k: nat): seq<nat>
    requires b <= k <= |knock|
  {
    knock[..k] + knock[b..]
  }

  lemma {:induction false} PositionOfPrefix(knock: seq<nat>, k: nat)
    requires knock != [] && k <= |knock|
    ensures Position(knock, knock[..k]) == k
  {
    if k > 0 {
      PositionOfPrefix(knock, k - 1);
      assert knock[..k][..k - 1] == knock[..k - 1];
    }
  }

  lemma {:induction false} PositionGrowsByOne(knock: seq<nat>, vs: seq<nat>, more: seq<nat>)
    requires knock != []
    ensures Position(knock, vs + more) <= (if Position(knock, vs) == 0 then |more| else Position(knock, vs) + |more|)
  {
    if more == [] {
      assert vs + more == vs;
    } else {
      var n := |more| - 1;
      PositionGrowsByOne(knock, vs, more[..n]);
      assert (vs + more)[..|vs| + n] == vs + more[..n];
    }
  }

  lemma OccurrenceMissed(knock: seq<nat>, b: nat, k: nat)
    requires 1 <= b < k < |knock| && Border(knock, b, k) && knock[b] != knock[k]
    ensures Occurs(knock, Missed(knock, b, k)) && Position(knock, Missed(knock, b, k)) < |knock|
  {
    hide Occurs, EndsWith;
    MissedHoldsKnock(knock, b, k);
    var vs := Missed(knock, b, k);
    var head := knock[..k] + [knock[b]];
    PositionOfPrefix(knock, k);
    assert head[..k] == knock[..k];
    assert Position(knock, head) <= 1;
    PositionGrowsByOne(knock, head, knock[b + 1..]);
    assert vs == head + knock[b + 1..];
  }

  lemma MissedHoldsKnock(knock: seq<nat>, b: nat, k: nat)
    requires 1 <= b < k < |knock| && Border(knock, b, k)
    ensures Occurs(knock, Missed(knock, b, k))
  {
    var vs := Missed(knock, b, k);
    assert vs[|vs| - |knock|..] == knock[k - b..k] + knock[b..];
    assert knock[..b] + knock[b..] == knock;
    assert vs[..|vs|] == vs && EndsWith(vs[..|vs|], knock);
  }

  /** The matcher finds the knock in every stream that holds it, at its first
      occurrence, if and only if the knock has no lost border. */
  lemma MatcherCompleteIff(knock: seq<nat>)
    requires knock != []
    ensures NoLostBorder(knock) <==> forall vs: seq<nat> :: FindsIff(knock, vs)
  {
    if NoLostBorder(knock) {
      forall vs: seq<nat> ensures FindsIff(knock, vs) {
        PositionIsLongest(knock, vs);
      }
    } else {
      var b, k :| 1 <= b < k < |knock| && Border(knock, b, k) && knock[b] != knock[k];
      OccurrenceMissed(knock, b, k);
      assert !FindsIff(knock, Missed(knock, b, k));
    }
  }

  predicate FindsIff(knock: seq<nat>, vs: seq<nat>)
    requires knock != []
  {
    Position(knock, vs) == |knock| <==> Occurs(knock, vs)
  }

  /** In particular when the first value does not come again. */
  lemma UniqueFirstIsComplete(knock: seq<nat>)
    requires knock != [] && forall i :: 1 <= i < |knock| ==> knock[i] != knock[0]
    ensures NoLostBorder(knock)
  {
    forall b, k | 1 <= b < k < |knock| ensures !Border(knock, b, k) {
      UniqueFirstNoBorder(knock, b, k);
    }
  }

  lemma UniqueFirstNoBorder(knock: seq<nat>, b: nat, k: nat)
    requires 1 <= b < k < |knock| && knock[k - b] != knock[0]
    ensures !Border(knock, b, k)
  {
    assert knock[..b][0] == knock[0] && knock[k - b..k][0] == knock[k - b];
  }
}
