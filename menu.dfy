/** The press/release latch every menu button runs. Each button's pair of
    flags evolves on its own, from its own rectangle and the event stream,
    so the latch is specified here on values and replayed over a trace of
    events; the game's buttons are held to this specification. */
module Menu {
  import opened Geometry
  import opened Options

  /** The SDL event types the menu code distinguishes; every other type is OtherEvent. */
  datatype EventKind = Quit | MouseButtonDown | MouseButtonUp | OtherEvent

  /** One polled event together with the cursor position that SDL_GetMouseState
      reports while it is being handled (not a position carried by the event). */
  datatype Event = Event(kind: EventKind, x: int, y: int)

  /** A button's two flags. */
  datatype Latch = Latch(hovered: bool, clicked: bool)

  const Idle: Latch := Latch(false, false)

  /** Handling e fires the action of a button whose flags were l exactly when
      e is a release and the button was armed; where the cursor is on release
      does not matter. */
  predicate Fires(l: Latch, e: Event)
  {
    e.kind == MouseButtonUp && l.clicked
  }

  /** One button's flags after one event: hover is recomputed for every event,
      a press over the button arms it, a release disarms it. */
  function NextLatch(r: Rect, l: Latch, e: Event): (n: Latch)
    ensures n.hovered <==> Contains(r, e.x, e.y)
    ensures e.kind == MouseButtonDown ==> (n.clicked <==> l.clicked || Contains(r, e.x, e.y))
    ensures e.kind == MouseButtonUp ==> !n.clicked
    ensures e.kind == Quit || e.kind == OtherEvent ==> n.clicked == l.clicked
  {
    var hovered := Contains(r, e.x, e.y);
    if e.kind == MouseButtonDown && hovered then Latch(hovered, true)
    else if e.kind == MouseButtonUp && l.clicked then Latch(hovered, false)
    else Latch(hovered, l.clicked)
  }

  /** The flags after handling every event of evs in order. */
  function Replay(r: Rect, l: Latch, evs: seq<Event>): Latch
  {
    if evs == [] then l else NextLatch(r, Replay(r, l, evs[..|evs| - 1]), evs[|evs| - 1])
  }

  predicate PressedInside(r: Rect, e: Event)
  {
    e.kind == MouseButtonDown && Contains(r, e.x, e.y)
  }

  /** evs[k] is a press over the button and no release follows it in evs. */
  predicate ArmedBy(r: Rect, evs: seq<Event>, k: int)
  {
    0 <= k < |evs| && PressedInside(r, evs[k])
    && forall j :: k < j < |evs| ==> evs[j].kind != MouseButtonUp
  }

  /** The button's action fires on the k-th event of evs. */
  predicate FiresAt(r: Rect, l: Latch, evs: seq<Event>, k: int)
  {
    0 <= k < |evs| && Fires(Replay(r, l, evs[..k]), evs[k])
  }

  /** Edge detection: after a trace a button is armed exactly when some press
      over it has not yet been followed by a release (or it was armed before
      the trace and no release came at all). */
  lemma {:induction false} ArmedIffPressedSinceRelease(r: Rect, l: Latch, evs: seq<Event>)
    ensures Replay(r, l, evs).clicked <==>
      (exists k :: ArmedBy(r, evs, k))
      || (l.clicked && forall j :: 0 <= j < |evs| ==> evs[j].kind != MouseButtonUp)
  {
    if evs != [] {
      var n := |evs| - 1;
      var front, e := evs[..n], evs[n];
      ArmedIffPressedSinceRelease(r, l, front);
      if PressedInside(r, e) {
        assert ArmedBy(r, evs, n);
      } else if e.kind == MouseButtonUp {
        assert !exists k :: ArmedBy(r, evs, k);
      } else {
        forall k | ArmedBy(r, front, k)
          ensures ArmedBy(r, evs, k)
        {
        }
        forall k | ArmedBy(r, evs, k)
          ensures ArmedBy(r, front, k)
        {
          assert k < n;
        }
        if l.clicked && forall j :: 0 <= j < |front| ==> front[j].kind != MouseButtonUp {
          assert forall j :: 0 <= j < |evs| ==> evs[j].kind != MouseButtonUp by {
            forall j | 0 <= j < |evs|
              ensures evs[j].kind != MouseButtonUp
            {
              if j < n { assert evs[j] == front[j]; }
            }
          }
        }
      }
    }
  }

  /** Activation is press-then-release: from a disarmed start, the action fires
      on event n exactly when event n is a release and some earlier press over
      the button has no release between it and n. The release itself may be
      anywhere on the screen. */
  lemma FiresIffPressThenRelease(r: Rect, l: Latch, evs: seq<Event>, n: int)
    requires !l.clicked && 0 <= n < |evs|
    ensures FiresAt(r, l, evs, n) <==>
      evs[n].kind == MouseButtonUp && exists k :: ArmedBy(r, evs[..n], k)
  {
    ArmedIffPressedSinceRelease(r, l, evs[..n]);
  }

  /** The release is not checked against the button: pressing Play and then
      letting go in the window's top-left corner still starts a game. */
  lemma ReleaseOffButtonFires()
    ensures !Contains(PlayRect, 0, 0)
    ensures FiresAt(PlayRect, Idle, [Event(MouseButtonDown, 400, 220), Event(MouseButtonUp, 0, 0)], 1)
  {
  }

  /** The latest event of evs[..n] on which the button's action fires. */
  function LastFiring(r: Rect, l: Latch, evs: seq<Event>, n: nat): (last: Option<nat>)
    requires n <= |evs|
    ensures last.Some? ==>
      last.value < n && FiresAt(r, l, evs, last.value)
      && forall j :: last.value < j < n ==> !FiresAt(r, l, evs, j)
    ensures last.None? ==> forall j :: 0 <= j < n ==> !FiresAt(r, l, evs, j)
  {
    if n == 0 then None
    else if FiresAt(r, l, evs, n - 1) then Some(n - 1)
    else LastFiring(r, l, evs, n - 1)
  }
}
