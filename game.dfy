/** The program's global state and the procedures that change it: the reset
    of the player and the drones, the collision bookkeeping of health and high
    score, the menu's event handler and the event-draining step of the main
    loop. Random numbers, the mouse position and the stored high score come in
    as parameters; the high-score file is a ghost log of the values written. */
module DroneZone {
  import opened Geometry
  import opened Options
  import opened Drones
  import opened Menu

  /** A menu button: its fixed rectangle and the two flags the event handler
      rewrites in place. The colours only matter for drawing. */
  class Button {
    const rect: Rect
    var hovered: bool
    var clicked: bool

    constructor (r: Rect)
      ensures rect == r && State() == Idle
    {
      rect := r;
      hovered, clicked := false, false;
    }

    function State(): Latch
      reads this
    {
      Latch(hovered, clicked)
    }
  }

  /** The globals of the program. */
  class Game {
    var player: Drone
    const drones: array<Drone>
    var running: bool
    var inGame: bool
    var playerHealth: int
    var score: int
    var highScore: int
    const playButton: Button
    const helpButton: Button
    const exitButton: Button
    /** Every value saveHighScore has written, oldest first. */
    ghost var savedScores: seq<int>

    /** The fixed shape of the globals: twenty drone slots and the three
        menu rectangles (which also makes the three buttons distinct). */
    ghost predicate Valid()
    {
      drones.Length == NUM_DRONES
      && playButton.rect == PlayRect && helpButton.rect == HelpRect && exitButton.rect == ExitRect
    }

    /** Static initialisation followed by loadHighScore: stored is the integer
        read from the high-score file, None when there is no file or it holds
        no integer. */
    constructor (stored: Option<int>)
      ensures Valid() && fresh(drones) && fresh(playButton) && fresh(helpButton) && fresh(exitButton)
      ensures running && !inGame && playerHealth == 100 && score == 0
      ensures highScore == (if stored.Some? then stored.value else 0)
      ensures player == Drone(0.0, 0.0, 0.0, 0.0)
      ensures forall i :: 0 <= i < drones.Length ==> drones[i] == Drone(0.0, 0.0, 0.0, 0.0)
      ensures playButton.State() == helpButton.State() == exitButton.State() == Idle
      ensures savedScores == []
    {
      player := Drone(0.0, 0.0, 0.0, 0.0);
      drones := new Drone[NUM_DRONES](_ => Drone(0.0, 0.0, 0.0, 0.0));
      running, inGame := true, false;
      playerHealth, score := 100, 0;
      highScore := if stored.Some? then stored.value else 0;
      playButton := new Button(PlayRect);
      helpButton := new Button(HelpRect);
      exitButton := new Button(ExitRect);
      savedScores := [];
    }

    /** initDrones: the player back at the centre at rest, and every drone
        redrawn from its four random numbers. */
    method InitDrones(draws: seq<Draw>)
      requires Valid() && |draws| == NUM_DRONES
      modifies this`player, drones
      ensures player == Centre && drones[..] == InitialDrones(draws)
      ensures forall i :: 0 <= i < drones.Length ==> InitialRanges(drones[i])
    {
      player := Centre;
      for i := 0 to NUM_DRONES
        invariant player == Centre
        invariant drones[..i] == InitialDrones(draws[..i])
      {
        drones[i] := InitialDrone(draws[i]);
        assert draws[..i + 1][..i] == draws[..i];
        assert drones[..i + 1] == drones[..i] + [drones[i]];
      }
      assert draws[..NUM_DRONES] == draws;
      assert drones[..NUM_DRONES] == drones[..];
    }

    /** checkCollisions: one point of health per drone in contact, no clamping
        at zero; once a decrement leaves health at or below zero the game flag
        is cleared and a strictly higher score becomes the high score and is
        saved. The player, the drones and the score are only read. */
    method CheckCollisions()
      requires Valid()
      modifies this`playerHealth, this`inGame, this`highScore, this`savedScores
      ensures playerHealth == old(playerHealth) - ContactCount(player, drones[..])
      ensures var over := ContactCount(player, drones[..]) > 0 && playerHealth <= 0;
        && inGame == (old(inGame) && !over)
        && highScore == (if over && score > old(highScore) then score else old(highScore))
        && savedScores == old(savedScores) + (if over && score > old(highScore) then [score] else [])
    {
      for i := 0 to NUM_DRONES
        invariant playerHealth == old(playerHealth) - ContactCount(player, drones[..i])
        invariant var over := ContactCount(player, drones[..i]) > 0 && playerHealth <= 0;
          && inGame == (old(inGame) && !over)
          && highScore == (if over && score > old(highScore) then score else old(highScore))
          && savedScores == old(savedScores) + (if over && score > old(highScore) then [score] else [])
      {
        assert drones[..i + 1][..i] == drones[..i];
        if InContact(player, drones[i]) {
          playerHealth := playerHealth - 1;
          if playerHealth <= 0 {
            inGame := false;
            if score > highScore {
              highScore := score;
              savedScores := savedScores + [highScore];
            }
          }
        }
      }
      assert drones[..] == drones[..NUM_DRONES];
    }

    /** updatePlayer: one keyboard steering step of the player. */
    method UpdatePlayer(keys: Keys)
      modifies this`player
      ensures player == Steered(old(player), keys)
    {
      var vx, vy := player.vx, player.vy;
      if keys.up { vy := vy - PLAYER_ACCEL; }
      if keys.down { vy := vy + PLAYER_ACCEL; }
      if keys.left { vx := vx - PLAYER_ACCEL; }
      if keys.right { vx := vx + PLAYER_ACCEL; }
      vx, vy := vx * FRICTION, vy * FRICTION;
      player := Drone(player.x + vx, player.y + vy, vx, vy);
    }

    /** handleMenuEvents: every button's flags step by NextLatch; a release of
        the armed Play button starts a game and redraws the drones (draws are
        the random numbers that reset would consume), a release of the armed
        Exit button stops the main loop, and Help has no action. The handler
        runs whether or not a game is on. */
    method HandleMenuEvent(e: Event, draws: seq<Draw>)
      requires Valid() && |draws| == NUM_DRONES
      modifies playButton, helpButton, exitButton, this`inGame, this`running, this`player, drones
      ensures playButton.State() == NextLatch(PlayRect, old(playButton.State()), e)
      ensures helpButton.State() == NextLatch(HelpRect, old(helpButton.State()), e)
      ensures exitButton.State() == NextLatch(ExitRect, old(exitButton.State()), e)
      ensures inGame == (old(inGame) || Fires(old(playButton.State()), e))
      ensures running == (old(running) && !Fires(old(exitButton.State()), e))
      ensures Fires(old(playButton.State()), e) ==>
        player == Centre && drones[..] == InitialDrones(draws)
      ensures !Fires(old(playButton.State()), e) ==>
        player == old(player) && drones[..] == old(drones[..])
    {
      var buttons := [playButton, helpButton, exitButton];
      for i := 0 to 3
        invariant playButton.State() ==
          if i > 0 then NextLatch(PlayRect, old(playButton.State()), e) else old(playButton.State())
        invariant helpButton.State() ==
          if i > 1 then NextLatch(HelpRect, old(helpButton.State()), e) else old(helpButton.State())
        invariant exitButton.State() ==
          if i > 2 then NextLatch(ExitRect, old(exitButton.State()), e) else old(exitButton.State())
        invariant inGame == (old(inGame) || (i > 0 && Fires(old(playButton.State()), e)))
        invariant running == (old(running) && !(i > 2 && Fires(old(exitButton.State()), e)))
        invariant i > 0 && Fires(old(playButton.State()), e) ==>
          player == Centre && drones[..] == InitialDrones(draws)
        invariant !(i > 0 && Fires(old(playButton.State()), e)) ==>
          player == old(player) && drones[..] == old(drones[..])
      {
        assert buttons[i] == (if i == 0 then playButton else if i == 1 then helpButton else exitButton);
        HandleButton(buttons[i], e, draws);
      }
    }

    /** The body of the handler's loop, for one of the three buttons. */
    method HandleButton(button: Button, e: Event, draws: seq<Draw>)
      requires Valid() && |draws| == NUM_DRONES
      requires button == playButton || button == helpButton || button == exitButton
      modifies button, this`inGame, this`running, this`player, drones
      ensures button.State() == NextLatch(button.rect, old(button.State()), e)
      ensures inGame == (old(inGame) || (button == playButton && Fires(old(button.State()), e)))
      ensures running == (old(running) && !(button == exitButton && Fires(old(button.State()), e)))
      ensures button == playButton && Fires(old(button.State()), e) ==>
        player == Centre && drones[..] == InitialDrones(draws)
      ensures !(button == playButton && Fires(old(button.State()), e)) ==>
        player == old(player) && drones[..] == old(drones[..])
    {
      button.hovered := Contains(button.rect, e.x, e.y);
      if e.kind == MouseButtonDown && button.hovered {
        button.clicked := true;
      } else if e.kind == MouseButtonUp && button.clicked {
        button.clicked := false;
        if button == playButton {
          inGame := true;
          InitDrones(draws);
        } else if button == exitButton {
          running := false;
        }
      }
    }

    /** One pass of the polling loop's body: a quit request stops the main
        loop, and the event then goes to the menu handler like any other. */
    method ProcessEvent(e: Event, draws: seq<Draw>)
      requires Valid() && |draws| == NUM_DRONES
      modifies playButton, helpButton, exitButton, this`inGame, this`running, this`player, drones
      ensures playButton.State() == NextLatch(PlayRect, old(playButton.State()), e)
      ensures helpButton.State() == NextLatch(HelpRect, old(helpButton.State()), e)
      ensures exitButton.State() == NextLatch(ExitRect, old(exitButton.State()), e)
      ensures inGame == (old(inGame) || Fires(old(playButton.State()), e))
      ensures running == (old(running) && e.kind != Quit && !Fires(old(exitButton.State()), e))
      ensures Fires(old(playButton.State()), e) ==>
        player == Centre && drones[..] == InitialDrones(draws)
      ensures !Fires(old(playButton.State()), e) ==>
        player == old(player) && drones[..] == old(drones[..])
    {
      if e.kind == Quit {
        running := false;
      }
      HandleMenuEvent(e, draws);
    }

    /** The inner polling loop of one frame: every pending event in order.
        draws[k] holds the random numbers a reset on event k would consume.
        Each button ends in its replayed state; the main loop stops if any
        event was a quit request or fired Exit; a game is on if one was or
        Play fired; and the drones are those of the last Play firing. */
    method DrainEvents(events: seq<Event>, draws: seq<seq<Draw>>)
      requires Valid() && |draws| == |events|
      requires forall k :: 0 <= k < |draws| ==> |draws[k]| == NUM_DRONES
      modifies playButton, helpButton, exitButton, this`inGame, this`running, this`player, drones
      ensures playButton.State() == Replay(PlayRect, old(playButton.State()), events)
      ensures helpButton.State() == Replay(HelpRect, old(helpButton.State()), events)
      ensures exitButton.State() == Replay(ExitRect, old(exitButton.State()), events)
      ensures running == (old(running) && forall k :: 0 <= k < |events| ==>
        events[k].kind != Quit && !FiresAt(ExitRect, old(exitButton.State()), events, k))
      ensures var last := LastFiring(PlayRect, old(playButton.State()), events, |events|);
        && inGame == (old(inGame) || last.Some?)
        && (last.Some? ==>
              player == Centre && drones[..] == InitialDrones(draws[last.value]))
        && (last.None? ==> player == old(player) && drones[..] == old(drones[..]))
    {
      ghost var play0, help0, exit0 := playButton.State(), helpButton.State(), exitButton.State();
      ghost var player0, drones0 := player, drones[..];
      ghost var last: Option<nat> := None;
      for k := 0 to |events|
        invariant playButton.State() == Replay(PlayRect, play0, events[..k])
        invariant helpButton.State() == Replay(HelpRect, help0, events[..k])
        invariant exitButton.State() == Replay(ExitRect, exit0, events[..k])
        invariant running == (old(running) && forall j :: 0 <= j < k ==>
          events[j].kind != Quit && !FiresAt(ExitRect, exit0, events, j))
        invariant last == LastFiring(PlayRect, play0, events, k)
        invariant inGame == (old(inGame) || last.Some?)
        invariant last.Some? ==> player == Centre && drones[..] == InitialDrones(draws[last.value])
        invariant last.None? ==> player == player0 && drones[..] == drones0
      {
        assert events[..k + 1][..k] == events[..k];
        ghost var playFires := FiresAt(PlayRect, play0, events, k);
        assert playFires == Fires(playButton.State(), events[k]);
        assert FiresAt(ExitRect, exit0, events, k) == Fires(exitButton.State(), events[k]);
        ProcessEvent(events[k], draws[k]);
        if playFires {
          last := Some(k);
        }
      }
      assert events[..|events|] == events;
    }
  }
}
