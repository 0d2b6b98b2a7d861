/** A ring that a writer goes round without looking back
(OneROM/firmware/src/piodma/pioplugin.c and the 1541HUD probe): which capture an
index stands for, and for how long. */
module CaptureRing {

  /** Everything captured since the start position, and the ring it went through. */
  datatype Capture = Capture(stream: seq<nat>, entries: nat, base: nat)

  predicate Wellformed(r: Capture) {
    r.entries >= 1 && r.base < r.entries
  }

  function Wrapped(i: nat, entries: nat): nat {
    if i + 1 >= entries then 0 else i + 1
  }

  /** The ring index of capture number c. */
  function Slot(r: Capture, c: nat): (i: nat)
    requires Wellformed(r)
    ensures i < r.entries
  {
    if c == 0 then r.base else Wrapped(Slot(r, c - 1), r.entries)
  }

  /** What index i holds once w captures have been written. */
  function Held(r: Capture, w: nat, i: nat): nat
    requires Wellformed(r) && w <= |r.stream|
  {
    if w == 0 then 0 else if Slot(r, w - 1) == i then r.stream[w - 1] else Held(r, w - 1, i)
  }

  lemma {:induction false} SlotDistance(r: Capture, c: nat, d: nat)
    requires Wellformed(r) && d < r.entries
    ensures Slot(r, c + d) == if d < r.entries - Slot(r, c) then Slot(r, c) + d else Slot(r, c) + d - r.entries
  {
    if d != 0 {
      SlotDistance(r, c, d - 1);
    }
  }

  /** While the writer is less than a ring ahead, an index is only reached again by
      its own capture, and still holds it. */
  lemma {:induction false} HeldIsCaptured(r: Capture, c: nat, w: nat)
    requires Wellformed(r) && c < w <= |r.stream| && w - c <= r.entries
    ensures Held(r, w, Slot(r, c)) == r.stream[c]
    decreases w
  {
    if c < w - 1 {
      SlotDistance(r, c, w - 1 - c);
      HeldIsCaptured(r, c, w - 1);
    }
  }

  lemma PointersMeet(r: Capture, c: nat, w: nat)
    requires Wellformed(r) && c <= w < c + r.entries
    ensures Slot(r, c) == Slot(r, w) <==> c == w
  {
    SlotDistance(r, c, w - c);
  }

  lemma SlotNext(r: Capture, c: nat)
    requires Wellformed(r)
    ensures Slot(r, c + 1) == Wrapped(Slot(r, c), r.entries)
  {
  }
}
