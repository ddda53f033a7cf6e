# Drone Zone — a verified model of its game state logic

Drone Zone is a small SDL game in one C file: a player square, twenty drones
that are scattered at random, and a start menu with Play, Help and Exit
buttons. This project models the parts of that file that compute something:

- `geometry.dfy` (module `Geometry`): the window and speed constants, the
  three button rectangles and the inclusive hover test.
- `drones.dfy` (module `Drones`): the position/velocity record shared by the
  player and the drones, how one drone is drawn from four `rand()` results,
  the player–drone contact test and count, and the keyboard steering step of
  `updatePlayer`, all over reals.
- `menu.dfy` (module `Menu`): the press/release latch every button runs,
  as a pure step `NextLatch`, replayed over a trace of events by `Replay`,
  with the edge-detection lemmas about it.
- `game.dfy` (module `DroneZone`): the program's globals as a class `Game`
  (with a class `Button` for each button), and the procedures that change
  them in place: `InitDrones`, `CheckCollisions`, `UpdatePlayer`,
  `HandleMenuEvent` (its loop body, for one button, is `HandleButton`),
  and the body and the inner event loop of `main` (`ProcessEvent`,
  `DrainEvents`). Each method's postcondition gives the
  whole new state in terms of the old state and the functions above.
- `option.dfy` (module `Options`): the usual `Option` type.

What the code does, as modelled:

- The event handler runs for every polled event, whether or not a game is on.
  It recomputes each button's hover flag from the current cursor position
  (both edges inclusive). A press over a button arms it. A release disarms
  every armed button and fires its action, wherever the cursor is at release.
  Play sets the game flag and resets the player and the drones. Exit clears
  the running flag. Help does nothing. A quit request clears the running flag
  and is then handled like any other event.
- `checkCollisions` costs one point of health per drone whose position is
  within 10 pixels of the player's position (the stored points, which the
  drawing code uses as the top-left corners of the squares). Health is not clamped, so it can go
  negative. When a decrement leaves health at or below zero, the game flag is
  cleared. A score strictly above the high score then replaces it and is
  saved. The source never calls `checkCollisions` or `updatePlayer` from its
  main loop; the model has them as stand-alone operations.
- A reset puts the player at (400, 300) at rest. Each drone gets whole-pixel
  coordinates in [0, 800) × [0, 600) and velocity components in {-2, -1, 0, 1}.
  The speed range is lopsided because `MAX_SPEED / 2` is integer division.

## Model

| member | source | states |
|---|---|---|
| `Geometry.AtMostOneHovered` | dronezone.c:42-44 | the three constant button rectangles are disjoint even with inclusive edges, so at most one button is hovered; each hover test is the pair of inclusive interval tests on x and y |
| `Drones.InitialSpeed` | dronezone.c:74-75 | a velocity component drawn as `rand() % MAX_SPEED` minus `MAX_SPEED / 2` is one of -2, -1, 0, 1 |
| `Drones.InitialDrone` | dronezone.c:72-75 | a freshly drawn drone has whole-pixel x in [0, 800), y in [0, 600) and both velocity components in {-2, -1, 0, 1} |
| `Drones.InitialDrones` | dronezone.c:71-76 | a reset batch has one drone per draw, and every drone in it is within the initial ranges |
| `Drones.InitialDronesAt` | dronezone.c:71-76 | the i-th drone of a batch is drawn from the i-th draw alone |
| `Drones.InitialRangesReachable` | dronezone.c:72-75 | every point of those ranges is produced by some draw, so the ranges are exact |
| `Drones.ContactCount` | dronezone.c:104-107 | the number of drones in contact with the player never exceeds the number of drones |
| `Drones.ContactCountIsCardinality` | dronezone.c:104-107 | the health lost in one pass equals the size of the set of drone indices in contact: each touching drone costs exactly one point |
| `Drones.NoContactIffZero` | dronezone.c:104-106 | no health is lost exactly when no drone is within contact distance |
| `Drones.HealthCanGoNegative` | dronezone.c:107 | two simultaneous contacts take a player at 1 health to -1: there is no clamp at zero |
| `Drones.FrictionSlowsDown` | dronezone.c:96-97 | with no key held each velocity component keeps its sign and shrinks in magnitude, strictly unless it is zero |
| `Drones.OpposingKeysCancel` | dronezone.c:91-94 | holding both keys of one axis gives the same step as holding neither |
| `Menu.NextLatch` | dronezone.c:176-184 | after any event a button is hovered exactly when the cursor is inside its rectangle; a press arms it exactly when hovered and otherwise leaves its latch alone; a release leaves it disarmed; any other event leaves the latch alone |
| `Menu.ArmedIffPressedSinceRelease` | dronezone.c:181-184 | after a trace of events a button is armed exactly when some press over it has not yet been followed by a release, or it was armed before and no release came |
| `Menu.FiresIffPressThenRelease` | dronezone.c:183-190 | from a disarmed start a button's action fires on event n exactly when event n is a release and an earlier press over the button has no release between it and n; hover at release is not required |
| `Menu.ReleaseOffButtonFires` | dronezone.c:183-187 | pressing Play and releasing at (0, 0), outside every button, fires Play |
| `Menu.LastFiring` | dronezone.c:185-187 | the last event of a trace on which a button fires: it fires there and on no later event, and None means it fires on no event |
| `DroneZone.Button.constructor` | dronezone.c:42-44 | a button starts with its rectangle and both flags cleared |
| `DroneZone.Game.constructor` | dronezone.c:28-53 | the globals start running, out of game, at health 100 and score 0, player and drones zeroed, buttons idle; the high score is the stored integer or 0 when there is none |
| `DroneZone.Game.InitDrones` | dronezone.c:65-77 | the player is at the window centre at rest and the drones are the batch drawn from the given random numbers, so each is within the initial ranges |
| `DroneZone.Game.CheckCollisions` | dronezone.c:103-117 | health drops by exactly the number of drones in contact; if that count is positive and health ends at or below zero, the game flag is cleared and the high score becomes the score when the score is strictly greater, with exactly that one value saved; otherwise game flag, high score and saves are unchanged; player, drones and score are only read |
| `DroneZone.Game.UpdatePlayer` | dronezone.c:90-100 | the player becomes `Steered(old player, keys)`: each velocity component gets the held keys' thrust of 0.1, then is multiplied by the friction 0.98, and the position advances by the new velocity |
| `DroneZone.Game.HandleMenuEvent` | dronezone.c:170-193 | each button's flags take one latch step; the game flag is set exactly when the armed Play button is released, which also resets the player and drones; the running flag is cleared exactly when the armed Exit button is released; otherwise player and drones are unchanged |
| `DroneZone.Game.HandleButton` | dronezone.c:177-190 | one button's flags take one latch step; if it is Play and fires, the game flag is set and the player and drones are reset; if it is Exit and fires, the running flag is cleared; otherwise nothing else changes |
| `DroneZone.Game.ProcessEvent` | dronezone.c:208-211 | as the menu handler, and in addition a quit request clears the running flag |
| `DroneZone.Game.DrainEvents` | dronezone.c:208-211 | after all pending events each button is in its replayed state; the main loop keeps running exactly when no event was a quit request or fired Exit; a game is on when one was on or Play fired; the drones are those drawn for the last Play firing |

## Left out

- Window, renderer, font and all drawing (`renderText`, `renderGame`,
  `renderButton`, `renderMenu`, the set-up and tear-down in `main`): SDL
  calls with no state logic. The button colours exist only for drawing.
- The outer `while (running)` loop of `main`: it only drains events and draws
  a frame; its body's event part is `DrainEvents`.
- `loadHighScore` and `saveHighScore`: file I/O. The stored value is a
  parameter of the `Game` constructor, and each save is recorded in the
  ghost log `savedScores`.
- `rand`, `srand` and `time`: the random numbers are parameters (`Draw`,
  one per drone, and one batch per event in `DrainEvents`); seeding is not
  modelled.
- `SDL_PollEvent` and `SDL_GetMouseState`: events come in as values, each
  with the cursor position read while it is handled.
- Single-precision floats: positions, velocities, `PLAYER_ACCEL` (0.1) and
  `FRICTION` (0.98) are exact reals, so float rounding is not modelled. The
  square root in the contact test is replaced by the equivalent test on the
  squared distance.
- `int` globals are unbounded integers: 32-bit overflow of health, score or
  high score is not modelled (one collision pass moves health by at most 20).
- The C `int` flags `hovered`, `clicked`, `running` and `inGame` are booleans.
- Pointer identity of the three button globals: the model's buttons are
  distinct objects, as the three globals are.
