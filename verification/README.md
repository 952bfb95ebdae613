# Models of the board demonstrations

Dafny models of seven pieces of logic, one or two modules each. An object that its code updates
in place is a class, and every method is proved equal to a step function on values; the results
are lemmas about those functions over all inputs, runs and interleavings.

- `LineDrawing`: the all-octant line of the games against the rounded ideal line.
- `FlipProtocol`: triple-buffered atomic page flips, the main loop interleaved with the display
  controller, for any number of buffers.
- `AsteroidPool`: splitting in a pool of 24 slots, waves, score and lives.
- `Invaders`: the formation march, kills, score and levels.
- `CameraPipeline`: zero-copy buffers between camera, pending slot and display, for n >= 2 buffers.
- `Japll`: sample phases, PI accumulator, fixed-point presets and lazy register writes.
- `MotorControl`: integer speed conversions with their 32-bit products.
- `QbvCodec`, `QciCodec` on `WireFormat`: packed big-endian messages, both QBV versions.
- `MacText`, `GateList`, `Timespecs`: the small text and time codecs of the TSN tools.
- `Basics`: what several of them share.

`dafny verify dfyconfig.toml` checks the whole project.

## What stands for the outside

Frame inputs say which bullets are in flight and what each one touches, as arbitrary predicates,
so every geometry is covered. The display controller accepts no commit while a flip is queued,
shows a queued flip at a vertical blank and then sends its event; everything else about it is a
parameter: when blanks fall, what poll returns, which commits it refuses. The capture driver fills
buffers in the order they were queued and is writing the head of its queue. A TSN device answers
a get with the payload it was last sent at the front of its reply. Doubles are reals; integer
widths are explicit where the code depends on them (register words, 32-bit products, message
fields, the wrap of the sample counter).

## Where code and comments disagree

The models follow the code.

- drm-asteroids.c:1502-1506 says that the wait keeps the loop from writing a buffer still being
  scanned out. The rendering comes before the wait; what protects it is the third buffer
  (`FlipProtocol.SafeIffThreeBuffers`). The pending flag tells the truth throughout a run if and
  only if every delivery handles all outstanding completions (`FlipProtocol.TruthfulIffComplete`);
  after a timeout it can be wrong (`FlipProtocol.FlagCanBeWrong`).
- drm-asteroids.c: children of a split are silently dropped when the pool is full; the account is
  exact in the first three waves, and not always in any later one (`AsteroidPool.ExactUpToWaveThree`).
- drm-invaders.c:1224 says that aliens speed up as they die. A kill slows them down exactly under
  the condition of `Invaders.KillSlowsIff`; for the first kill before a restart this means from
  level 2 on or after two drops (`Invaders.FirstKillSlows`, `Invaders.TwoDropsThenKill`). A restart
  keeps the old formation (`Invaders.RestartDeficit`, `Invaders.RestartAfterReach`).
- microchip-tsn-cli.c:889 says that exactly six bytes are ensured. A thirteenth digit is accepted
  (`MacText.ParserAccepts`) and written behind them, and so it is in some rejected strings
  (`MacText.WritesBehindIff`, `MacText.ThirteenthDigit`). The one caller validates first, so the
  program never gets there (`MacText.MacAddrInput`).
- `is_gcl_state_csv` refuses what `gcl_state_to_csv` prints unless one gate is open
  (`GateList.PrintedAcceptedIff`).
- The line drawn from the other end differs when the longer extent in lowest terms is even
  (`LineDrawing.DrawingDirection`, `LineDrawing.DirectionMatters`).
- Storing a stepper period and writing it back keeps its speed exactly under the condition of
  `MotorControl.WriteBackKeepsSpeed`; the BLDC product wraps for some admissible speed exactly
  for rated speeds below 63 (`MotorControl.NoWrapIff`), and so accuracy and monotony are lost
  (`MotorControl.AccurateForAllSpeeds`, `MotorControl.MonotoneForAllSpeeds`).

## Model

| member | source | states |
|---|---|---|
| LineDrawing.DrawLine | multimedia/drm-games/drm-asteroids.c:881-893 | for any two endpoints in any octant the loop terminates and leaves the framebuffer equal to the old one with exactly the pixels of the half-pixel-rounded ideal line plotted, clipped to the visible area; nothing else changes |
| LineDrawing.PutPixel | multimedia/drm-games/drm-asteroids.c:866-870 | a point outside the visible w by h area changes nothing; a visible one changes its own word only |
| LineDrawing.PlotAllPixel | multimedia/drm-games/drm-asteroids.c:866-893 | after plotting a list of points a pixel has the new colour if and only if it is visible and in the list; every other word, the padding behind each row included, keeps its value |
| LineDrawing.LineEndpoints | multimedia/drm-games/drm-asteroids.c:881-893 | the line has max(dx,dy)+1 points, starts at (x0,y0) and ends exactly at (x1,y1) |
| LineDrawing.LineWithinHalfPixel | multimedia/drm-games/drm-asteroids.c:881-893 | a point i x-steps and j y-steps from the start satisfies 2*abs(i*dy - j*dx) <= max(dx,dy), lies inside the bounding box, and is reached after max(i,j) iterations |
| LineDrawing.LineIsConnected | multimedia/drm-games/drm-asteroids.c:889-891 | each iteration moves at most one pixel per axis, never backwards, and always along the longer axis (both when the extents are equal) |
| LineDrawing.ErrorTermDrives | multimedia/drm-games/drm-asteroids.c:885-891 | the two tests on the single shared error term choose, in every octant, exactly the moves of the rounded ideal line, and the longer axis (both when equal) moves on every iteration |
| LineDrawing.ErrorTermBounded | multimedia/drm-games/drm-asteroids.c:885-891 | the doubled error term stays within three times the longer extent, so extents below 2^29 cannot overflow 32 bits |
| LineDrawing.RoundedIsNearest | multimedia/drm-games/drm-asteroids.c:885-891 | the minor-axis position is the nearest integer to the ideal one, an exact half rounding towards the start |
| LineDrawing.NearestIsUnique | multimedia/drm-games/drm-asteroids.c:885-891 | no second position meets that half-pixel condition, so the rounded line is the only possible result |
| LineDrawing.LineStep | multimedia/drm-games/drm-asteroids.c:888-891 | one pass of the loop body leads from point k of the ideal line to point k+1 and keeps the error term in step |
| LineDrawing.LineMeetsEndOnce | multimedia/drm-games/drm-asteroids.c:887 | the exit test holds at the last point of the line and at no earlier one |
| LineDrawing.RoundedMirror | multimedia/drm-games/drm-asteroids.c:885-891 | seen from the other end a step rounds to the mirrored position if and only if it is not an exact half |
| LineDrawing.DrawingDirection | multimedia/drm-games/drm-asteroids.c:881-893 | drawing from the other end visits the same pixels in reverse order if and only if the longer extent divided by the greatest common divisor of both is odd |
| LineDrawing.TieIffEven | multimedia/drm-games/drm-asteroids.c:885-891 | some step passes exactly half-way between two pixels if and only if the longer extent in lowest terms is even |
| LineDrawing.DirectionMatters | multimedia/drm-games/drm-asteroids.c:881-893 | the input (0,0)-(2,1), whose middle pixel is (1,0) one way and (1,1) the other |
| FlipProtocol.DrawingIsSafe | multimedia/drm-games/drm-asteroids.c:1480-1513 | for n >= 3 buffers, in every interleaving of rendering, vertical blanks, event delivery, timeouts, signals, and accepted, busy or failed commits, the primary and overlay buffers being rendered are neither on screen nor queued, fronts agree, and both planes show the same frame; the pending flag is not used |
| FlipProtocol.SafeIffThreeBuffers | multimedia/drm-games/drm-asteroids.c:73 | rendering before the wait is safe in all interleavings if and only if there are at least three buffers per plane |
| FlipProtocol.InvStep | multimedia/drm-games/drm-asteroids.c:740-814 | every step of application and display controller keeps an invariant in which the pending flag does not occur |
| FlipProtocol.InvRun | multimedia/drm-games/drm-asteroids.c:740-814 | that invariant holds after every legal sequence of steps, and the number of buffers stays |
| FlipProtocol.FirstFlip | multimedia/drm-games/drm-asteroids.c:740-774 | the first pass of the loop queues buffer 1 of both planes, advances both fronts together and raises the flag (buffer 0 again when it is the only one) |
| FlipProtocol.ShownFramesAdvance | multimedia/drm-games/drm-asteroids.c:740-774 | the screen never goes back to an older frame, and every completed flip shows a strictly newer one |
| FlipProtocol.FlagHasCauseRun | multimedia/drm-games/drm-asteroids.c:784-814 | whenever the pending flag is up a completion is queued or undelivered, so the wait always has something to wait for |
| FlipProtocol.FlagIsAccurateRun | multimedia/drm-games/drm-asteroids.c:784-814 | the flag is exact at every moment, commits included, if and only if no wait is given up; then at most one event waits and the controller is idle at every commit |
| FlipProtocol.TruthfulIffComplete | multimedia/drm-games/drm-asteroids.c:784-814 | the flag says at every moment of a run whether a flip is outstanding if and only if every delivery handles all completions outstanding at that time |
| FlipProtocol.NoEarlyCommitSuffices | multimedia/drm-games/drm-asteroids.c:740-814 | as long as no commit is granted over an unread completion, at most one flip is outstanding and every delivery is complete |
| FlipProtocol.WaitsPreventEarlyCommit | multimedia/drm-games/drm-asteroids.c:784-814 | only a wait that was given up can lead to a commit granted over an unread completion |
| FlipProtocol.FlagFromStart | multimedia/drm-games/drm-asteroids.c:784-814 | in every run from initialisation: never up without cause; truthful throughout if and only if all deliveries are complete, which holds without early commits, and these need a wait given up |
| FlipProtocol.FlagCanBeWrong | multimedia/drm-games/drm-asteroids.c:801-808 | a concrete run with one timeout and an incomplete delivery after which the flag is down while a flip is still queued: the late event of an earlier flip was taken for the newer one |
| FlipProtocol.DrmDevice.constructor | multimedia/drm-games/drm-asteroids.c:627-645 | front buffers 0 on both planes, no flip pending or queued |
| FlipProtocol.DrmDevice.DrawPrimaryPlane | multimedia/drm-games/drm-asteroids.c:1281-1282 | draws the current frame into the primary buffer after the front one, cyclically, and no other |
| FlipProtocol.DrmDevice.DrawOverlayPlane | multimedia/drm-games/drm-asteroids.c:1338-1339 | the same for the overlay |
| FlipProtocol.DrmDevice.PageFlipHandler | multimedia/drm-games/drm-asteroids.c:516-522 | the completion callback lowers the pending flag |
| FlipProtocol.DrmDevice.HandleEvent | multimedia/drm-games/drm-asteroids.c:810-812 | delivering events lowers the flag and consumes exactly those events |
| FlipProtocol.DrmDevice.PollOnce | multimedia/drm-games/drm-asteroids.c:798-813 | one turn of the wait loop, a legal extension of the run: a readable poll with 1 to all of the completions there (that of a queued flip included if a vertical blank falls into the poll) lowers the flag and consumes exactly these; every other outcome leaves both; the wait is left with the flag up exactly on a timeout or failure |
| FlipProtocol.DrmDevice.WaitFlip | multimedia/drm-games/drm-asteroids.c:784-814 | returns at once when nothing is pending; otherwise the flag is down at the end, after WaitDone, if and only if some poll delivers a completion before the first one that timed out or failed, and else the last step is GiveUp |
| FlipProtocol.DrmDevice.AtomicFlip | multimedia/drm-games/drm-asteroids.c:740-781 | the commit is granted exactly when a request is allocated, the controller accepts it and is idle; only then are both fronts advanced, the flag raised and both back buffers queued together; a busy refusal returns 0, another its error, a failed allocation -1 |
| FlipProtocol.DrmDevice.Submit | multimedia/drm-games/drm-asteroids.c:763-766 | the controller queues both images together or changes nothing |
| FlipProtocol.DrmDevice.Present | multimedia/drm-games/drm-asteroids.c:1507-1513 | wait and commit of a frame: fronts, flag and queue after a granted commit, and without one the flag up exactly if the wait failed |
| FlipProtocol.DrmDevice.Render | multimedia/drm-games/drm-asteroids.c:1489-1493 | both planes of one frame are drawn before the wait, with vertical blanks anywhere between |
| FlipProtocol.DrmDevice.Pass | multimedia/drm-games/drm-asteroids.c:1480-1513 | one pass extends the run and ends with its commit attempt: on both planes exactly the buffer behind the front one is drawn, these become the front ones exactly if the commit is granted, and otherwise the flag stays up exactly if the wait failed |
| FlipProtocol.DrmDevice.MainLoop | multimedia/drm-games/drm-asteroids.c:1480-1513 | any number of passes from initialisation is one run of the protocol, so after each the buffers to draw into are free and the planes agree |
| AsteroidPool.ScoreIsConserved | multimedia/drm-games/drm-asteroids.c:1189-1227 | in every reachable state score + value of the active asteroids == 850 * large asteroids spawned this game - value of the children that found no slot (hence <= 850 * spawned), with nothing lost up to the third wave |
| AsteroidPool.ExactUpToWaveThree | multimedia/drm-games/drm-asteroids.c:1058-1080 | the account is exact in all reachable states of a wave if and only if that wave is one of the first three |
| AsteroidPool.LossyGame | multimedia/drm-games/drm-asteroids.c:1202-1215 | for every wave from the fourth on a complete game that reaches it and has lost a child |
| AsteroidPool.HitConserves | multimedia/drm-games/drm-asteroids.c:1198-1219 | one hit keeps points + remaining value + lost value, adds no leaves, strictly shortens the wave, and loses a child only if the pool has more leaves than slots |
| AsteroidPool.SplitSum | multimedia/drm-games/drm-asteroids.c:1202-1219 | destroying an asteroid takes exactly its own weight out of any of the three sums and puts its children's weight in: two of them, or one when a child is lost |
| AsteroidPool.ChildLostIffFull | multimedia/drm-games/drm-asteroids.c:1202-1215 | a child is lost if and only if the parent splits and no slot was free |
| AsteroidPool.FullPoolLeaves | multimedia/drm-games/drm-asteroids.c:1202-1215 | a full pool has at least one leaf per slot, and more by the weight of any larger asteroid |
| AsteroidPool.PlaceManySum | multimedia/drm-games/drm-asteroids.c:1063-1079 | a wave of that many large asteroids fills the first slots of an empty pool, all of it counted |
| AsteroidPool.NewWaveSums | multimedia/drm-games/drm-asteroids.c:1058-1080 | a new wave is worth 850 points and 4 leaves per asteroid, and the first three waves never have more leaves than slots |
| AsteroidPool.ShootKeeps | multimedia/drm-games/drm-asteroids.c:1190-1226 | one bullet keeps the account, the wave number and the spawn count |
| AsteroidPool.ShootFromKeeps | multimedia/drm-games/drm-asteroids.c:1189-1227 | so do all bullets of a frame, whatever each of them touches |
| AsteroidPool.CheckWaveKeeps | multimedia/drm-games/drm-asteroids.c:1251-1256 | spawning when no asteroid is left keeps the account |
| AsteroidPool.StartConserves | multimedia/drm-games/drm-asteroids.c:1082-1101 | a new game starts with the account balanced |
| AsteroidPool.ApplyKeeps | multimedia/drm-games/drm-asteroids.c:1103-1256 | every frame and every restart or pause key keeps the account and the number of asteroids spawned by the waves so far |
| AsteroidPool.PlayKeeps | multimedia/drm-games/drm-asteroids.c:1103-1256 | and so does every sequence of them |
| AsteroidPool.FrameTrace | multimedia/drm-games/drm-asteroids.c:1160-1256 | a played frame in full, in numbers: the respawn timer, every bullet on what the earlier ones left, a living ship touched by an active asteroid loses one life and waits 120 frames (game over at zero), and an empty pool brings the next wave of min(12, 3 + wave) large asteroids |
| AsteroidPool.ShotIsRight | multimedia/drm-games/drm-asteroids.c:1190-1226 | a bullet not in flight or touching nothing active changes nothing; else exactly the first active asteroid it touches is destroyed, for 150, 100 or 50 points by size, and its children take the first free slots |
| AsteroidPool.SplitIsRight | multimedia/drm-games/drm-asteroids.c:1202-1219 | where the children go, slot by slot: the first two free slots once the parent's is free, or the parent's alone if there was no other |
| AsteroidPool.KeysAndRest | multimedia/drm-games/drm-asteroids.c:977-999 | pause toggles, restart acts only after game over and gives 3 lives, score 0 and an empty pool, and a frame while paused or over changes nothing |
| AsteroidPool.StartIsRight | multimedia/drm-games/drm-asteroids.c:1082-1101 | a new game: 3 lives, score 0, 4 large asteroids in the first of 24 slots |
| AsteroidPool.ClearWave | multimedia/drm-games/drm-asteroids.c:1251-1256 | from any running state the wave can be shot down, the next one follows, and lost value stays lost |
| AsteroidPool.ShootFirst | multimedia/drm-games/drm-asteroids.c:1189-1256 | a bullet that hits something either shortens the wave or starts the next one |
| AsteroidPool.LoseChild | multimedia/drm-games/drm-asteroids.c:1202-1215 | with more leaves than slots some sequence of hits fills the pool and loses a child in the same wave |
| AsteroidPool.LivesKept | multimedia/drm-games/drm-asteroids.c:1229-1249 | from any state with these properties every run keeps them: over exactly when no life is left, lives in 0..3, at most 120 frames to respawn |
| AsteroidPool.LivesFromStart | multimedia/drm-games/drm-asteroids.c:1082-1249 | in every reachable state the game is over exactly when no life is left, and a destroyed ship has at most 120 frames to wait |
| AsteroidPool.ShipReturns | multimedia/drm-games/drm-asteroids.c:1160-1169 | a destroyed ship is back after as many played frames as its timer says, or has been back and cost a further life |
| AsteroidPool.ShipReturnsInTime | multimedia/drm-games/drm-asteroids.c:1160-1169 | so from every reachable state without a ship within 120 played frames |
| AsteroidPool.LivesStep | multimedia/drm-games/drm-asteroids.c:1160-1249 | one event costs at most one life, and only together with the ship |
| AsteroidPool.AsteroidGame.constructor | multimedia/drm-games/drm-asteroids.c:1082-1101 | a new game: 3 lives, score 0, the first wave spawned into an empty pool |
| AsteroidPool.AsteroidGame.InitFirstFree | multimedia/drm-games/drm-asteroids.c:1208-1213 | the asteroid goes into the first inactive slot; without one the pool is unchanged |
| AsteroidPool.AsteroidGame.SpawnNextWave | multimedia/drm-games/drm-asteroids.c:1058-1080 | wave number up by one and 3 + wave, at most 12, large asteroids placed |
| AsteroidPool.AsteroidGame.HitAsteroid | multimedia/drm-games/drm-asteroids.c:1198-1219 | score, split into the first free slots with the parent's slot already free, and the value of a child without a slot |
| AsteroidPool.AsteroidGame.BulletCollision | multimedia/drm-games/drm-asteroids.c:1190-1226 | only a bullet in flight does anything: it destroys the first active asteroid it touches, for 150, 100 or 50 points, with the children in the first free slots, and nothing else changes |
| AsteroidPool.AsteroidGame.BulletCollisions | multimedia/drm-games/drm-asteroids.c:1189-1227 | each bullet acts on the pool the earlier ones left, freshly split children included |
| AsteroidPool.AsteroidGame.ShipCollisions | multimedia/drm-games/drm-asteroids.c:1229-1249 | a living ship touched by any active asteroid dies once: one life, 120 frames to respawn, game over at zero; otherwise nothing changes |
| AsteroidPool.AsteroidGame.CheckWaveCleared | multimedia/drm-games/drm-asteroids.c:1251-1256 | a wave is spawned exactly when no asteroid is active |
| AsteroidPool.AsteroidGame.CountDownRespawn | multimedia/drm-games/drm-asteroids.c:1160-1169 | a dead ship's timer runs down and brings it back at zero |
| AsteroidPool.AsteroidGame.Update | multimedia/drm-games/drm-asteroids.c:1103-1256 | a frame is nothing while paused or over, otherwise respawn, bullets, ship and wave check in this order |
| AsteroidPool.AsteroidGame.PressRestartKey | multimedia/drm-games/drm-asteroids.c:989-997 | only after game over: score, lives, wave and all slots reset; the next frame spawns wave one |
| AsteroidPool.AsteroidGame.PressPauseKey | multimedia/drm-games/drm-asteroids.c:988 | toggles pause only |
| Invaders.EveryLevelEnds | multimedia/drm-games/drm-invaders.c:1173-1331 | from every reachable state of a running game, any sequence of events with an explicit number of played frames, a function of the screen size alone, clears the level or ends the game |
| Invaders.LevelEndsWithin | multimedia/drm-games/drm-invaders.c:1173-1331 | the same from any state in the invariant, with the frames left counted from the moves left in the present crossing |
| Invaders.FrameProgress | multimedia/drm-games/drm-invaders.c:1143-1331 | every played frame ends the level or lowers the measure; kills and delay changes cannot raise it |
| Invaders.MarchProgress | multimedia/drm-games/drm-invaders.c:1173-1201 | a timer tick, a 2-pixel move or a 12-pixel drop each use up time |
| Invaders.BoundCovers | multimedia/drm-games/drm-invaders.c:1173-1201 | the measure never exceeds the explicit bound: 30 frames per move, a fixed number of moves per crossing, crossings until the topmost row would reach the ship |
| Invaders.ReachableStates | multimedia/drm-games/drm-invaders.c:1043-1331 | in every reachable state alive_count is the number of live aliens, on screens wider than 412 every live alien is strictly inside an 8-pixel margin on both sides, and score + points of the live aliens == 1650*level - deficit with deficit >= 0 |
| Invaders.ExactUntilRestart | multimedia/drm-games/drm-invaders.c:1206-1331 | while fire is not pressed after a game over the account is exactly 1650*level |
| Invaders.RestartDeficit | multimedia/drm-games/drm-invaders.c:986-994 | a restart keeps the old formation, and makes the account exact again if and only if all 55 aliens are alive |
| Invaders.RestartAfterReach | multimedia/drm-games/drm-invaders.c:986-994 | the first frame after a restart ends the new game if and only if an alien is at the ship after its shots or at least 3 strikes fall; so it does whenever the formation was at the ship and no bullet is in flight |
| Invaders.StartMargin | multimedia/drm-games/drm-invaders.c:1043-1059 | the right margin holds at the start if and only if the screen is wider than 412 |
| Invaders.FirstKillSlows | multimedia/drm-games/drm-invaders.c:1194-1230 | in every reachable state before a restart with all 55 alive, move_delay is max(4, initial delay of the level - drops so far), and the first kill lengthens it if and only if the level is at least 2 or the formation has dropped at least twice (offset_y >= 64) |
| Invaders.KillSlowsIff | multimedia/drm-games/drm-invaders.c:1224-1230 | any kill, restarts included, lengthens the delay if and only if another alien remains and the delay was below 30 * remaining / 55 (at least 4) |
| Invaders.TwoDropsThenKill | multimedia/drm-games/drm-invaders.c:1173-1230 | a run on the 1280 by 720 screen, level 1, no restart: after two drops the first kill raises the delay from 28 to 29 |
| Invaders.PlayKeepsDelay | multimedia/drm-games/drm-invaders.c:1173-1230 | every run without a restart keeps the delay formula of the full formation |
| Invaders.NextDrop | multimedia/drm-games/drm-invaders.c:1173-1201 | a formation left alone comes to its next drop, 12 pixels lower and one frame faster down to 4 |
| Invaders.FullFormation | multimedia/drm-games/drm-invaders.c:1043-1052 | a full formation is 55 aliens worth 1650 points |
| Invaders.WorthOfKill | multimedia/drm-games/drm-invaders.c:1218-1221 | removing an alien lowers the worth by exactly its row's points |
| Invaders.MissingAlien | multimedia/drm-games/drm-invaders.c:1218-1221 | any formation short of 55 aliens is worth less than 1650 |
| Invaders.StartInv | multimedia/drm-games/drm-invaders.c:1073-1089 | a new game meets the invariant with nothing missing |
| Invaders.MarchKeeps | multimedia/drm-games/drm-invaders.c:1173-1201 | a march step keeps delay, timer, count and both margins, and changes nothing but the formation's position and timing |
| Invaders.KillKeeps | multimedia/drm-games/drm-invaders.c:1218-1230 | a kill keeps the account, the count and the delay range [4,30] |
| Invaders.ShootFromKeeps | multimedia/drm-games/drm-invaders.c:1206-1236 | so do all bullets of a frame, whatever they touch; aliens only disappear |
| Invaders.StrikeKeeps | multimedia/drm-games/drm-invaders.c:1289-1306 | each strike costs one life, and the game is over exactly when they are used up |
| Invaders.CheckEndKeeps | multimedia/drm-games/drm-invaders.c:1309-1331 | the reached-ship test and the next level's formation keep the account, and some alien is alive afterwards |
| Invaders.ApplyKeeps | multimedia/drm-games/drm-invaders.c:1143-1331 | every frame and key keeps the invariant |
| Invaders.PlayKeeps | multimedia/drm-games/drm-invaders.c:1143-1331 | every sequence of events keeps the invariant and the screen size |
| Invaders.FrameTrace | multimedia/drm-games/drm-invaders.c:1143-1331 | a played frame in full, in numbers: march, every bullet on what the earlier ones left, one life for each strike, over exactly with an alien within 30 pixels of the bottom or no life left, and with no alien left and none low the next level with a new formation |
| Invaders.ShotIsRight | multimedia/drm-games/drm-invaders.c:1206-1236 | a bullet not in flight or touching nothing live changes nothing; else exactly the first live alien it touches in row order is gone, the count one lower, the score 50, 40, 30, 20 or 10 higher for rows 0 to 4, and the delay max(4, 30 * remaining / 55) while any remain |
| Invaders.FirstHitIsFirst | multimedia/drm-games/drm-invaders.c:1209-1212 | the search returns the first live alien touched in row order, and misses none |
| Invaders.MarchIsRight | multimedia/drm-games/drm-invaders.c:1173-1201 | the march in numbers: only live aliens count for the edge, 10 pixels from it on the side ahead; a drop of 12 with a turn, or 2 pixels on |
| Invaders.LowIsReached | multimedia/drm-games/drm-invaders.c:1309-1320 | the ship is reached exactly by a live alien whose lower edge is within 30 pixels of the bottom |
| Invaders.FirstShot | multimedia/drm-games/drm-invaders.c:1206-1236 | one bullet through a whole new formation on 1280 by 720: 50 points, 54 aliens left, alien (0,0) gone |
| Invaders.OneShot | multimedia/drm-games/drm-invaders.c:1206-1236 | the same in any running state whose first two aliens live |
| Invaders.KeysAndRest | multimedia/drm-games/drm-invaders.c:985-999 | fire restarts only after game over, pause works only before, and a frame while paused or over changes nothing |
| Invaders.StartIsRight | multimedia/drm-games/drm-invaders.c:1073-1089 | a new game: all 55 aliens at (20,40), delay 30, 3 lives, level 1 |
| Invaders.OverKept | multimedia/drm-games/drm-invaders.c:1300-1320 | from any state with this property every run keeps it: no lives means over, over means no lives or an alien at the ship, and never paused |
| Invaders.OverFromStart | multimedia/drm-games/drm-invaders.c:1073-1320 | it holds in every reachable state |
| Invaders.InvadersGame.constructor | multimedia/drm-games/drm-invaders.c:1073-1089 | level 1, 3 lives, a full formation |
| Invaders.InvadersGame.SetUpAliens | multimedia/drm-games/drm-invaders.c:1043-1059 | all 55 aliens alive and counted, at (20,40), moving right, with the delay of the level (never below 4) |
| Invaders.InvadersGame.MoveAliens | multimedia/drm-games/drm-invaders.c:1173-1201 | the formation's step is exactly the specified march: wait, move two pixels, or drop, turn and speed up |
| Invaders.InvadersGame.CheckDrop | multimedia/drm-games/drm-invaders.c:1179-1189 | true if and only if some live alien touches the edge it is moving towards |
| Invaders.InvadersGame.KillAlien | multimedia/drm-games/drm-invaders.c:1218-1230 | alien gone, count, score and delay follow |
| Invaders.InvadersGame.BulletCollision | multimedia/drm-games/drm-invaders.c:1207-1235 | only a bullet in flight does anything: it kills the first live alien it touches, row by row, with count, score by row and delay following, and nothing else changes |
| Invaders.InvadersGame.BulletCollisions | multimedia/drm-games/drm-invaders.c:1206-1236 | each bullet acts on the formation the earlier ones left |
| Invaders.InvadersGame.ShipStruck | multimedia/drm-games/drm-invaders.c:1289-1306 | each strike costs a life, and the game is over when none is left; later strikes of the frame still count down |
| Invaders.InvadersGame.AliensReachedShip | multimedia/drm-games/drm-invaders.c:1309-1320 | true if and only if some live alien's lower edge is at or below the ship's top |
| Invaders.InvadersGame.Update | multimedia/drm-games/drm-invaders.c:1143-1331 | a frame in the source's order; a formation at the ship ends the game before a cleared level is noticed |
| Invaders.InvadersGame.PressFireKey | multimedia/drm-games/drm-invaders.c:985-995 | only after game over: score, lives and level reset, the formation stays |
| Invaders.InvadersGame.PressPauseKey | multimedia/drm-games/drm-invaders.c:996-999 | toggles pause unless the game is over |
| CameraPipeline.OwnershipInvariant | multimedia/cam2display-zerocopy/cam2display.c:33-114 | in every run with n >= 2 buffers current, pending, queued and filled buffers partition all n, and the camera owns n-1 or n-2 |
| CameraPipeline.PartitionStep | multimedia/cam2display-zerocopy/cam2display.c:33-114 | no step loses or duplicates a buffer |
| CameraPipeline.InitPartition | multimedia/cam2display-zerocopy/v4l2_capture.c:85-99 | startup gives buffer 0 to the display and each other one to the camera once |
| CameraPipeline.QueueLength | multimedia/cam2display-zerocopy/v4l2_capture.c:90-92 | a partition means the camera holds all buffers but the current and the pending one |
| CameraPipeline.QueuedOnce | multimedia/cam2display-zerocopy/v4l2_capture.c:32-46 | a queued buffer is queued once and is neither current, pending nor filled |
| CameraPipeline.FlipSubmitsNewest | multimedia/cam2display-zerocopy/cam2display.c:46-53 | in every run each flip submits the most recently dequeued frame, newer than the one before unless nothing was dequeued in between |
| CameraPipeline.FramesStayInOrder | multimedia/cam2display-zerocopy/cam2display.c:33-114 | submitted frames never go back in capture order |
| CameraPipeline.OrderedStep | multimedia/cam2display-zerocopy/cam2display.c:33-114 | every step keeps filled, pending and current frames in capture order |
| CameraPipeline.CameraMeetsDisplayIffLate | multimedia/cam2display-zerocopy/cam2display.c:46-53 | over any whole run the camera never writes the image on screen if and only if after every release fewer captures complete before the next blank than there are buffers ahead of the released one |
| CameraPipeline.ReleaseWindow | multimedia/cam2display-zerocopy/cam2display.c:46-53 | with f buffers filled at the release, the released buffer sits behind n-2-f others: up to the next blank the camera stays off it if and only if fewer than n-2-f captures complete |
| CameraPipeline.WindowStep | multimedia/cam2display-zerocopy/cam2display.c:46-53 | the number of captures left tracks the place of the on-screen buffer in the queue through every step |
| CameraPipeline.WindowIsExact | multimedia/cam2display-zerocopy/cam2display.c:46-53 | that number reaches zero exactly when the camera starts writing the buffer on screen |
| CameraPipeline.WindowCounts | multimedia/cam2display-zerocopy/cam2display.c:91-109 | between a release and the next blank dequeues do not matter, only captures count |
| CameraPipeline.LoopIsRun | multimedia/cam2display-zerocopy/cam2display.c:73-113 | whatever the hardware and poll do, the main loop is a run of the protocol |
| CameraPipeline.PassEffect | multimedia/cam2display-zerocopy/cam2display.c:74-113 | one pass written out: a signal, error, timeout, quit or failed dequeue changes nothing, all but the signal end the loop; else the oldest filled buffer is taken first, an unshown one goes back, and a flip submits the pending buffer, the one just taken included, and returns the current one |
| CameraPipeline.LoopTrace | multimedia/cam2display-zerocopy/cam2display.c:73-113 | the loop turn by turn: hardware, then one pass, ending with the first turn that calls for it and no other |
| CameraPipeline.HardwareTrace | multimedia/cam2display-zerocopy/v4l2_capture.c:32-46 | the assumed hardware step by step: captures fill the queue from its head, a vertical blank shows the submitted buffer |
| CameraPipeline.CaptureDevice.StartCapturing | multimedia/cam2display-zerocopy/v4l2_capture.c:85-92 | buffers 1 to n-1 queued in order, buffer 0 kept |
| CameraPipeline.CaptureDevice.QueueBuffer | multimedia/cam2display-zerocopy/v4l2_capture.c:32-46 | a buffer joins the end of the queue |
| CameraPipeline.CaptureDevice.DequeueBuffer | multimedia/cam2display-zerocopy/v4l2_capture.c:48-74 | 1 with the oldest filled buffer, 0 when there is none, -1 on an error without taking one, and -1 with the buffer gone when its index is out of range |
| CameraPipeline.Pipeline.constructor | multimedia/cam2display-zerocopy/v4l2_capture.c:85-99 | the initial ownership, with buffer 0 on screen and submitted |
| CameraPipeline.Pipeline.PageFlipHandler | multimedia/cam2display-zerocopy/cam2display.c:33-54 | with a pending buffer the current one is re-queued and replaced, otherwise shown again; either way one buffer is submitted |
| CameraPipeline.Pipeline.VideoReady | multimedia/cam2display-zerocopy/cam2display.c:91-109 | a dequeued frame becomes pending and an unshown pending one goes back to the camera; only an error ends the loop |
| CameraPipeline.Pipeline.Pass | multimedia/cam2display-zerocopy/cam2display.c:74-113 | what one pass leaves in both indices, the submitted buffer, the camera's queue and its filled buffers, written out: with video and flip ready the submitted buffer is the oldest filled one and pending and current go back in that order; the loop is left exactly on error, timeout, quit or failed dequeue, without any change |
| CameraPipeline.Pipeline.MainLoop | multimedia/cam2display-zerocopy/cam2display.c:73-113 | after any series of turns every buffer has one owner and frames are in capture order |
| Japll.WholeRun | japll-pi-controller/japll-pi.c:408-458 | whole-run theorem: after two or more samples with writing enabled and 0 <= total < 4096, integer*2^24 + fraction read from the two register fields == floor(base*(1+u/10^9)*2^24), with u the second sample raw and later kp*e + ki*dt*sum of the errors from the third on (or the raw sample with the controller off) |
| Japll.ProgrammedNumber | japll-pi-controller/japll-pi.c:201-458 | the whole run in numbers: base is 125 * 40 or 125 * 20 times the divider bits of the startup register over the board clock; u is the second sample, later kp*(setPoint - last) + ki*dt*((k-2)*setPoint - sum of samples 3..k), or the raw sample with the controller off; if 0 <= base*(u/10^9 + 1) < 4096 the two fields hold its product with 2^24, rounded down |
| Japll.CorrectionInNumbers | japll-pi-controller/japll-pi.c:201-242 | the correction of a whole run written out in kp, ki, dt, set point and samples |
| Japll.BaseInNumbers | japll-pi-controller/japll-pi.c:277-304 | the base preset and the one register written at startup, from the register bits |
| Japll.TotalInNumbers | japll-pi-controller/japll-pi.c:252-253 | a positive correction raises the preset: base * (u / 10^9 + 1) |
| Japll.FieldsInNumbers | japll-pi-controller/japll-pi.c:72-90 | which register bits the fields are: [11:0] of 0xB or 0xE, [29:6] of 0x9, [23:0] of 0xD |
| Japll.PresetsInNumbers | japll-pi-controller/japll-pi.c:247-268 | integer and fraction of one sample written out |
| Japll.PositiveWord | japll-pi-controller/japll-pi.c:357-359 | a nonnegative 32-bit number is stored as it is |
| Japll.RunBookkeeping | japll-pi-controller/japll-pi.c:411-455 | after k samples the phase counter is k for k < 2 and never enters a settle phase again (the wrap at INT_MAX included), and the accumulator is ki*dt times the sum of the errors from the third sample on |
| Japll.RunRegisters | japll-pi-controller/japll-pi.c:408-458 | after any run the registers are the startup ones with both presets of the latest correction, whatever was or was not written on the way, and untouched before the second sample or with writing disabled |
| Japll.LazyRefinesEager | japll-pi-controller/japll-pi.c:247-272 | skipping the integer write while the integer is unchanged leaves the same registers as writing both presets on every sample |
| Japll.LatestCorrection | japll-pi-controller/japll-pi.c:437-443 | the frequency a sample applies is the correction formula of the whole run so far |
| Japll.SampleWrites | japll-pi-controller/japll-pi.c:416-455 | every sample but the first leaves the eager registers of the frequency it applies |
| Japll.FixedPoint | japll-pi-controller/japll-pi.c:252-267 | the truncated integer and the scaled remainder together are the floor of total*2^24, with the fraction below 2^24 |
| Japll.EagerFields | japll-pi-controller/japll-pi.c:341-406 | after a write the integer field is the low 12 bits, the fraction field the low 24 bits of the computed values, CCC bits outside [11:0] and [29:6] are the startup ones, and the transceiver has hold and preset on |
| Japll.StartupBitsKept | japll-pi-controller/japll-pi.c:318-329 | in every run, without a range condition, startup bits beside the two fields and all other registers stay |
| Japll.CccIntBits | japll-pi-controller/japll-pi.c:348-355 | the masked write keeps all bits outside [11:0], and the field is the whole integer exactly when the range warning is silent |
| Japll.CccFracBits | japll-pi-controller/japll-pi.c:371-378 | the shifted and masked write keeps all bits outside [29:6] and stores the low 24 bits of the fraction |
| Japll.XcvrFracBits | japll-pi-controller/japll-pi.c:385-399 | the two transceiver words carry the same 24-bit fraction, the first with preset off and hold on, the second with both on |
| Japll.WritesHaveEffect | japll-pi-controller/japll-pi.c:341-406 | replaying the write log gives the registers of the step, and every new transceiver fraction passes through the hold word |
| Japll.InitKeeps | japll-pi-controller/japll-pi.c:277-339 | startup leaves counter and accumulator zero, both presets marked unwritten, the CCC field bits cleared out of the saved words, and only the fraction enable register written |
| Japll.Controller.constructor | japll-pi-controller/japll-pi.c:277-339 | base preset from reference divider, multiplier and board clock, with the presets of a zero error |
| Japll.Controller.ICal | japll-pi-controller/japll-pi.c:213-222 | the returned integral is the new accumulator, grown by error * ki * dt |
| Japll.Controller.PiController | japll-pi-controller/japll-pi.c:227-242 | kp times the error plus the updated integral |
| Japll.Controller.CalculatePresets | japll-pi-controller/japll-pi.c:247-272 | integer and 24-bit fraction of base * (ppb / 10^9 + 1), rounded down; the integer is marked unwritten only when it changed, the fraction always |
| Japll.Controller.ConfigureJapll | japll-pi-controller/japll-pi.c:341-406 | writes exactly the registers marked unwritten, in order, and clears the marks; the log records every write |
| Japll.Controller.WriteInteger | japll-pi-controller/japll-pi.c:343-363 | the integer part of this |
| Japll.Controller.WriteFraction | japll-pi-controller/japll-pi.c:365-403 | the fraction part, through the hold word for the transceiver |
| Japll.Controller.JapllMain | japll-pi-controller/japll-pi.c:408-458 | one sample: ignored, applied raw, or controlled and applied, by phase; the counter goes up by one and from 2^31 - 1 back to 2; without writing no register changes |
| Japll.Controller.Discipline | japll-pi-controller/japll-pi.c:277-458 | startup and a whole series of samples leave the registers that the whole-run theorems are about |
| Japll.Controller.RunSamples | japll-pi-controller/japll-pi.c:408-458 | a series of samples has the effect of the run the theorems are about |
| MotorControl.WriteBackIsCanonical | motor-control-bldc/lib/motor.cpp:282-301 | for every period in range not above the top speed (no product wraps then), the period written back is >= it, in range, denotes the same stored speed, is the largest such period without wrap, and is written again unchanged |
| MotorControl.WriteBackKeepsSpeed | motor-control-bldc/lib/motor.cpp:570-581 | the write-back keeps the stored speed if and only if the period is at most the top speed or the top speed is below the default 0x4F |
| MotorControl.BeyondTopSpeed | motor-control-bldc/lib/motor.cpp:570-580 | a period above the top speed stores speed 0 and is replaced by the default 0x4F, which denotes 0 again only if the top speed is below it |
| MotorControl.RpmIsQuotient | motor-control-bldc/lib/motor.cpp:295-300 | K/(x*d) == (K/d)/x: the stored speed is the top speed divided by the period |
| MotorControl.SlewIsQuotient | motor-control-bldc/lib/motor.cpp:571-574 | the period written back, before the clamp, is the top speed divided by the stored speed, and its 32-bit product cannot wrap |
| MotorControl.QuarterSteps | motor-control-bldc/lib/motor.cpp:298 | quarter steps per turn: microsteps times 4 times steps |
| MotorControl.StepperInNumbers | motor-control-bldc/lib/motor.cpp:297-300 | 240 million over the 32-bit product of period or speed and quarter steps, kept between 32 and 255; 79 for speed zero |
| MotorControl.FastSpeedIsClamped | motor-control-bldc/lib/motor.cpp:571-577 | 200 turns per minute with the default specs would need a period of 23 and get 32 |
| MotorControl.SameSpeed | motor-control-bldc/lib/motor.cpp:571-577 | every period between x and N/(N/x) has the quotient N/x, so the clamp keeps the speed |
| MotorControl.DivByProduct | motor-control-bldc/lib/motor.cpp:298-299 | dividing by a product is dividing by one factor and then by the other |
| MotorControl.FastSpecsNeverWrap | motor-control-bldc/lib/motor.cpp:297-300 | specs with a top speed of at least 255 keep all products of admissible periods below 2^32 |
| MotorControl.UpToTopSpeedFits | motor-control-bldc/lib/motor.cpp:297-300 | so does any period not above the top speed, whatever the specs |
| MotorControl.NoWrapIff | motor-control-bldc/lib/motor.cpp:90-92 | all speeds 10..4000 are free of 32-bit wrap-around if and only if the rated speed is at least 63 |
| MotorControl.ReferenceAccuracy | motor-control-bldc/lib/motor.cpp:262-276 | for every positive speed, the reference is at most 65536*speed/R and falls short of it by less than speed/1024 + 1 if and only if the 32-bit product does not wrap; up to the rated speed R it never does and the reference is at most 65536 |
| MotorControl.AccurateForAllSpeeds | motor-control-bldc/lib/motor.cpp:262-276 | all speeds 10..4000 are converted that accurately if and only if the rated speed is at least 63 |
| MotorControl.ReferenceMonotone | motor-control-bldc/lib/motor.cpp:262-276 | without a wrap the reference never decreases with the speed |
| MotorControl.MonotoneForAllSpeeds | motor-control-bldc/lib/motor.cpp:262-276 | over all speeds 10..4000 the reference is monotone if and only if the rated speed is at least 63 |
| MotorControl.FirstWrap | motor-control-bldc/lib/motor.cpp:262-276 | below that, a speed whose successor gets a lower reference |
| MotorControl.MaskLosesNothing | motor-control-bldc/lib/motor.cpp:271-275 | the 24-bit mask drops nothing of any 32-bit product divided by 1024 |
| MotorControl.Motor.constructor | motor-control-bldc/lib/motor.h:53-101 | the default specs and stored speed |
| MotorControl.Motor.CalculateBldcConstants | motor-control-bldc/lib/motor.cpp:90-92 | the scale is 65536*1024 divided by the rated speed |
| MotorControl.Motor.SetSpeed | motor-control-bldc/lib/motor.cpp:256-303 | -1 and no change without devices or outside the type's range; otherwise 0 and exactly the type's register written, a stepper's stored speed following if the specs are set |
| MotorControl.Motor.WriteStepperSlew | motor-control-bldc/lib/motor.cpp:566-581 | the period of the stored speed clamped to 0x20..0xFF, or the default for speed zero |
| MotorControl.Motor.ApplyParameters | motor-control-bldc/lib/motor.cpp:463-475 | scale or period recomputed by motor type; nothing without devices |
| MotorControl.Motor.SetApplyAgain | motor-control-bldc/lib/motor.cpp:256-303 | set_speed then apply_parameters, twice: the first round ends at or above the given period with the same stored speed, and the second ends at the very same register value |
| QbvCodec.RoundTripV3 | tsn/microchip-tsn-lib.c:593-649 | for every configuration, decoding whatever starts with the packed big-endian v3 payload returns the same configuration, stream IDs and list entries included; the payload has 278 + 5*entries bytes |
| QbvCodec.EncodeV3Injective | tsn/microchip-tsn-lib.c:593-649 | different configurations have different v3 messages |
| QbvCodec.RoundTripV2 | tsn/microchip-tsn-lib.c:536-577 | decoding a v2 payload of 29 + 5*entries bytes returns the configuration reduced to what v2 holds |
| QbvCodec.LossOfV2 | tsn/microchip-tsn-lib.c:536-577 | of an accepted configuration exactly the eighth priority, the stream addresses and the high half of the cycle time are lost, and nothing is lost if and only if they were zero |
| QbvCodec.LayoutV3 | tsn/microchip-tsn-cmds.h:91-107 | every v3 field lies at its packed offset |
| QbvCodec.LayoutV2 | tsn/microchip-tsn-cmds.h:60-73 | every v2 field lies at its packed offset |
| QbvCodec.StreamBytes | tsn/microchip-tsn-cmds.h:75-85 | the fifteen bytes of a stream record: mask, da, big-endian vid, pcp, frer, reserved ones zero |
| QbvCodec.GateBytes | tsn/microchip-tsn-cmds.h:55-58 | the five bytes of a list entry |
| QbvCodec.SwitchBytes | tsn/microchip-tsn-cmds.h:60-65 | the order of the first four bytes |
| QbvCodec.OnlyFieldsAre | tsn/microchip-tsn-lib.c:53-73 | exactly the reset set and each stream's mask, vid, pcp and frer |
| QbvCodec.AddressesDoNotCount | tsn/microchip-tsn-lib.c:53-73 | configurations that differ in stream addresses only are refused or sent alike |
| QbvCodec.SetThenGet | tsn/microchip-tsn-lib.c:153-295 | set then get: identity on version 3; on version 2 refused exactly with v3-only fields, otherwise the reduced configuration; refused on any other version |
| QbvCodec.CheckV3OnlyFields | tsn/microchip-tsn-lib.c:53-73 | true if and only if the reset set or some stream's mask, vid, pcp or frer is nonzero; addresses do not count |
| QbvCodec.SetQbvConf | tsn/microchip-tsn-lib.c:510-668 | which versions and configurations are refused, and otherwise command, announced size and payload |
| QbvCodec.FillV3 | tsn/microchip-tsn-lib.c:610-649 | filling the cleared buffer field by field gives the specified v3 message, reserved bytes zero |
| QbvCodec.FillV2 | tsn/microchip-tsn-lib.c:560-577 | the same for v2 |
| QbvCodec.AppendStream | tsn/microchip-tsn-cmds.h:75-85 | one 15-byte stream record, nothing written behind it |
| QbvCodec.AppendGates | tsn/microchip-tsn-lib.c:646-649 | all list entries, five bytes each, in order |
| QbvCodec.GetQbvConfV3 | tsn/microchip-tsn-lib.c:245-283 | the nested loops read every stream and list entry at its offset |
| QbvCodec.GetQbvConfV2 | tsn/microchip-tsn-lib.c:198-216 | the v2 reader; fields it has no place for are zero |
| WireFormat.BeRoundTrip | tsn/microchip-tsn-lib.c:640-647 | big-endian bytes read back give the number, for every number that fits the width |
| WireFormat.BigEndian | tsn/microchip-tsn-lib.c:640-647 | the most significant byte comes first, byte by byte for each width |
| QciCodec.RoundTrip | tsn/microchip-tsn-lib.c:1199-1285 | the 528-byte filtering message decodes to the same sixteen policies, every field included |
| QciCodec.PolicyReads | tsn/microchip-tsn-lib.c:1249-1275 | a record found anywhere in a message reads back as its policy |
| QciCodec.RecordLayout | tsn/microchip-tsn-cmds.h:175-190 | every field of a record lies at its packed offset |
| QciCodec.SetQciConf | tsn/microchip-tsn-lib.c:1108-1197 | refused unless the hardware is version 3; otherwise command, size 528 and the payload port by port |
| QciCodec.GetQciConf | tsn/microchip-tsn-lib.c:1247-1277 | the nested loops read all sixteen records |
| QciCodec.SetThenGet | tsn/microchip-tsn-lib.c:1199-1285 | set then get is the identity on version 3, refused otherwise |
| MacText.ValidIsParsed | tsn/microchip-tsn-cli.c:391-412 | every string the validator accepts is parsed to exactly six bytes with success |
| MacText.ValidNibbles | tsn/microchip-tsn-cli.c:391-412 | an accepted string has exactly twelve digits, at known places |
| MacText.ParserAccepts | tsn/microchip-tsn-cli.c:861-890 | the parser accepts exactly the strings of colons and hex digits with twelve or thirteen digits, wherever the colons are |
| MacText.ColonsDoNotMatter | tsn/microchip-tsn-cli.c:868-870 | colon and colon-free spellings give the same bytes |
| MacText.ParsersAgree | tsn/microchip-tsn-cli.c:1761-1772 | parse_mac_string gives the same bytes as mac_str_to_bytes on every valid 17-character address |
| MacText.PrintThenParse | tsn/microchip-tsn-cli.c:356-365 | a printed address is valid, and both parsers read the same six bytes back |
| MacText.HexDigitReads | tsn/microchip-tsn-cli.c:849-859 | hex_char_to_int inverts the printed digit |
| MacText.HexValues | tsn/microchip-tsn-cli.c:849-859 | the sixteen digits, letters in both cases, have their values and no other character has one |
| MacText.ValidForms | tsn/microchip-tsn-cli.c:391-412 | exactly twelve digits, or seventeen characters with a colon at every third place |
| MacText.PrintedText | tsn/microchip-tsn-cli.c:356-365 | lower-case digit pairs, the high digit first, with colons between |
| MacText.OddPairs | tsn/microchip-tsn-cli.c:1766-1771 | what strtoul makes of pairs that are no two digits, by examples |
| MacText.IsValidMacAddress | tsn/microchip-tsn-cli.c:391-412 | true if and only if twelve hex digits, or six pairs with a colon at every third place |
| MacText.MacStrToBytes | tsn/microchip-tsn-cli.c:861-890 | 0 with the bytes of the digit pairs exactly on the accepted strings, -1 otherwise; and exactly what is written, also on rejected strings: the digits before the first bad character over the six bytes and the one behind them, nothing else |
| MacText.WritesBehindIff | tsn/microchip-tsn-cli.c:876-886 | the byte behind the address is written if and only if at least thirteen digits come before the first character that is neither digit nor colon |
| MacText.ThirteenthDigit | tsn/microchip-tsn-cli.c:876-889 | two inputs: thirteen digits are accepted and set the byte behind the address, and so they do before a bad character, where the text is rejected |
| MacText.ValidStaysInside | tsn/microchip-tsn-cli.c:391-412 | a validated string never changes the byte behind the address |
| MacText.MacAddrInput | tsn/microchip-tsn-cli.c:912-928 | the only caller validates first: of all memory only the six bytes of the address can change, and only on a valid line; an empty line ends the prompt only in edit mode |
| MacText.ParseMacString | tsn/microchip-tsn-cli.c:1761-1772 | six bytes, each from two characters at stride three, as strtoul reads them |
| GateList.AcceptedGates | tsn/microchip-tsn-cli.c:442-473 | reading an accepted list opens gate b if and only if digit b occurs in it, so order and repetition do not matter |
| GateList.AcceptedNames | tsn/microchip-tsn-cli.c:442-473 | by induction over lists of any length: the tokens name exactly the digits that occur |
| GateList.PrintThenRead | tsn/microchip-tsn-cli.c:475-495 | parsing the printed text returns the original state, for all 256 states |
| GateList.PrintedGates | tsn/microchip-tsn-cli.c:475-495 | the printed text names exactly the open gates |
| GateList.TokensOfText | tsn/microchip-tsn-cli.c:475-495 | strtok splits a printed text into its digits, all but the first behind a space |
| GateList.PrintedAcceptedIff | tsn/microchip-tsn-cli.c:620-642 | the validator accepts a printed text if and only if exactly one gate is open |
| GateList.PrintedFits | tsn/microchip-tsn-cli.c:475-495 | a printed text fits its 64-byte buffer |
| GateList.OpenOneMore | tsn/microchip-tsn-cli.c:457-458 | setting a bit opens that gate and changes no other |
| GateList.MaskIsBit | tsn/microchip-tsn-cli.c:457-458 | gate b is bit b of the state |
| GateList.GateListForm | tsn/microchip-tsn-cli.c:620-642 | accepted lists have odd length, digits 0..7 at even places and commas between |
| GateList.TextLayout | tsn/microchip-tsn-cli.c:475-495 | digit, comma and space for each open gate but the last |
| GateList.GatesDownAre | tsn/microchip-tsn-cli.c:483-492 | the printed gates are exactly the open ones |
| GateList.GatesDescend | tsn/microchip-tsn-cli.c:483-492 | the printed gates come in falling order |
| GateList.TokensConcat | tsn/microchip-tsn-cli.c:453-461 | strtok separates at commas and nowhere else |
| GateList.AtoiReadsDecimal | tsn/microchip-tsn-cli.c:455 | atoi reads every printed number back, signed or not, whatever follows it |
| GateList.AtoiOfOther | tsn/microchip-tsn-cli.c:455 | atoi skips white space and gives zero for a text that starts with no number |
| GateList.StateFromGates | tsn/microchip-tsn-cli.c:442-464 | two states with the same open gates are equal |
| GateList.SetBitsFromString | tsn/microchip-tsn-cli.c:442-464 | for any string, every token that is a number 0..7 opens its gate, all others are ignored, gates already open stay |
| GateList.GclCsvToUint | tsn/microchip-tsn-cli.c:466-473 | the same from a closed state |
| GateList.IsGclStateCsv | tsn/microchip-tsn-cli.c:620-642 | true if and only if the string is one or more digits 0..7 separated by single commas |
| GateList.GclStateToCsv | tsn/microchip-tsn-cli.c:475-495 | the open gates, highest first, separated by a comma and a space |
| Timespecs.Normalise | tsn/microchip-tsn-replace-tsnbasetime.c:44-66 | terminates for every signed input with the normal form of the same time |
| Timespecs.NormalFormUnique | tsn/microchip-tsn-replace-tsnbasetime.c:44-66 | 0 <= nsec < 10^9, the same time in nanoseconds, and no other value has both |
| Timespecs.Add | tsn/microchip-tsn-replace-tsnbasetime.c:68-80 | the sum of the two times in normal form |
| Timespecs.SumIsExact | tsn/microchip-tsn-replace-tsnbasetime.c:68-80 | sums are exact and normal for arguments in any form |
| Timespecs.SumLaws | tsn/microchip-tsn-replace-tsnbasetime.c:68-80 | the sum is commutative and associative |
| Timespecs.NewBaseTime | tsn/microchip-tsn-replace-tsnbasetime.c:240-251 | clock plus offset; with round-up the least whole second not before it |

## Left out

- Japll.WholeRun: doubles are reals, so rounding and conversions of doubles outside the range of int are not modelled; the range 0 <= total < 4096 is that of the 12-bit integer field.
- Japll.ProgrammedNumber: the same two limits.
- MotorControl.WriteBackKeepsSpeed: says nothing of a period or default whose product leaves 32 bits; there the stored speed comes from the wrapped product. Periods up to the top speed are never of this kind.
- MotorControl.Motor.CalculateBldcConstants: only the speed scale of the constants it computes; the others are single expressions.
- MotorControl.Motor.SetSpeed: assumes a nonzero wrapped divisor for a stepper; the original divides by zero otherwise. Hex formatting of the register values is left out.
- MotorControl.Motor.ApplyParameters: of the constants and registers that apply_parameters computes and writes, only the speed scale and the step period; the write-only copy stepper_slew_count_ is not kept.
- QbvCodec.SetThenGet: lists of at most 32 entries, the room of the reply buffer; a longer list in a reply makes the original read past it. The round-trip lemmas have no such limit.
- QbvCodec.SetQbvConf: the command header (device id, status and status text), opening the device and reading its capabilities are not modelled; the version is an input.
- GateList.SetBitsFromString: numbers too large for atoi are read exactly instead of overflowing, and strdup does not fail.
- Timespecs.Normalise: tv_sec and tv_nsec are unbounded.
- CameraPipeline.Pipeline.PageFlipHandler: a failed drmModePageFlip, after which the original gets no further flip events, and failures of VIDIOC_QBUF, which exit.
- CameraPipeline.Pipeline.MainLoop: the hardware moves between passes, not inside one; the step relation, over which the main results are stated, has every interleaving.
- AsteroidPool.ScoreIsConserved: score and wave counters do not overflow.
- Invaders.ReachableStates: score and level do not overflow, and alien offsets, floats in the original, are integers, which is what they always hold.
- Positions, velocities, firing and cooldown of ships and bullets, shields, explosions, particles, stars and all drawing beyond lines: covered by the arbitrary frame inputs or without effect on what is proved.
- The single-buffered cursor plane, drawn while on screen.
- The other games: the same flip code and easier game rules.
- QAV, QBU, QCI version 1, statistics and misc messages: single fields or the same scheme.
- Stepper CMD_STEP packing, the other BLDC constants, direction strings: single expressions.
- JSON files, prompts, sysfs, ioctl, mmap, ptp4l output and the camera gain tool: I/O or foreign code.
