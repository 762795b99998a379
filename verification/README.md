# DOOM's hard corners, verified

A Dafny 4.11 model of the parts of inDevOS's DOOM port (`doom/`) that are hardest to get right, with proofs
about all inputs, all runs or all reachable states. `dafny verify dfyconfig.toml` checks the whole project.

* **The net game** (`Net*.dfy`). `NetTics` is the byte-sized tic numbers, `NetNode` one machine as functions on
  values, `NetSystem` n machines over a network that drops, duplicates, delays and reorders packets. `NetInvariant`,
  `NetSteps` and `NetAlarm` carry the invariants through every step, `NetTheorems` states what follows for every run.
  `NetInputs` shows that what is executed is what the players entered, `NetProgress` that the game gets on and makes
  losses good, and `NetStale` says when it stops with an error. `NetDriver` is the code with its rings and loops, proved
  against the functions; `NetBridge` shows that machines which take turns in any order are a run of the system.
* **Sound** (`Level`, `SoundFlood`). The re-entrant marking search finds the cheapest way to every sector.
* **The blockmap** (`Chains`, `BlockMap`, `BlockScan`, `LineSide`, `LineClip`, `Intercepts`). Intrusive lists under
  every allowed sequence of calls, scans that agree with brute force, heights that do not depend on the order of
  lines, sides of boxes and points, intercepts in order.
* **Weapons** (`Weapon*.dfy`). The mutually recursive state setter and actions end, and keep ammo, ownership and
  sprites in step over every life of a player. `WeaponSwitch` and `WeaponFire` say when a weapon comes up and when it
  shoots, `WeaponChoice` which one is chosen. `WeaponCode` is the code in place.
* **Raster work** (`AutomapClip`, `AutomapDrops`, `AutomapDraw`, `Raster`, `Melt`, `MeltCode`). Clipping and the
  lines it drops, Bresenham lines, the melting screen.
* **Round trips** (`Demo`, `DemoCode`, `Numbers`, `NumbersCode`). Demos and decimal numbers.
* **Stairs** (`Stairs`, `StairHeights`, `StairSkips`). The builder that overwrites its own loop index, how high its
  stairs rise, and the sectors it leaves behind.

Code that changes things in place is modelled by classes, arrays and loops. Each such method is tied to a function on
values, and the properties are proved about that function. `Arith`, `Options`, `Distinct` and `Fixed` are shared helpers.
The environment enters as parameters: clock ticks, player input, the mail of the network, random numbers, callbacks,
which sector a point lies in.

Results that differ from what one might expect:

* The error "numtics > BACKUPTICS" is reachable: a retransmit request that is delivered late, but well within 64
  tics, makes a node send thirteen tics at once (`NetStale.StaleRequestStops`). It happens exactly when a request
  reaches back more than twelve tics (`NetStale.TooManyTicsExactly`).
* A box that lies on one side of a line has all its points on that side, except the points on a vertical line
  (`LineSide.BoxSideDecides`; such a box is in `LineSide.EdgeOnVertical`).
* P_CheckPosition looks for things in the blocks around the destination, grown by MAXRADIUS, 32 map units. A larger
  thing can be overlooked although it overlaps the mover and is solid (`BlockScan.LargeIsMissed`), and the game has
  four kinds of them. The scan can be relied on exactly up to one fixed-point unit above MAXRADIUS
  (`BlockScan.ScanReaches`).
* `spechit` has eight slots and its store is not guarded. A check that passes stays inside if and only if at most eight
  special lines are touched and let through (`LineClip.Clipper.CheckPosition`); nine can lie at one place
  (`LineClip.NineAreTooMany`). A move that is blocked in the end can have left the array as well
  (`LineClip.BlockedIsTooLate`).
* `EV_BuildStairs` goes on from the sector where a flight ended, so tagged sectors can be left behind
  (`StairSkips.SkipHappens`). Which ones can be read off the level: those around which a chain of sectors leads
  (`StairSkips.SkipsExactly`). None is if no line of one floor texture jumps over a tagged sector
  (`StairSkips.AllRaised`).
* The automap's clipper drops some lines that have a pixel in the frame. The outcodes decide in every frame from two
  by two pixels on: such lines occur if and only if the first end lies off a corner and the line goes from above the
  frame to below it, or back (`AutomapDrops.DropsExactly`).
* From a turbo scale of 256 on, a command can look like the end of a demo and ends the recording
  (`Demo.MarkerReachable`).
* On the bottom side the clipper intersects with the row below the frame (`AutomapClip.CutOnLine`).
* `wipe_doMelt` with no ticks returns done at once (`MeltCode.Wipe.DoMelt`); its caller never does that.

## Model

| member | source | states |
|---|---|---|
| `NetTics.ExpandTicsExact` | doom/d_net.c:120-135 | the low byte gives back the tic if and only if it lies within 64 tics, or up to 191 in the neighbouring page |
| `NetTics.ExpandTicsWindow` | doom/d_net.c:120-135 | 64 tics is the widest distance that survives for every maketic |
| `NetTheorems.Agreement` | doom/d_net.c:636-770 | in every reachable state two nodes that have run a gametic ran the same command of every player in it, the one that player issued |
| `NetTheorems.RingWindows` | doom/d_net.c:349-410 | in every reachable state gametic/ticdup <= nettics <= maketic of the other, and no distance that a ring bridges exceeds 10 |
| `NetTheorems.NothingOverwritten` | doom/d_net.c:404-441 | a tic that is still to start, the next one included, is in its twelve-slot ring as its player issued it, and so are the last twelve own tics that may be resent |
| `NetInputs.ExecutedAreInputs` | doom/d_net.c:398-410 | in every run, what any machine has executed for a player in a gametic is the input that this player entered for that tic: moves, turn, chat and buttons, or when the tic is repeated all but chat and special buttons |
| `NetInputs.IssuedAreInputs` | doom/d_net.c:398-410 | the commands that a player has issued in a run are the inputs entered, one for one and in order |
| `NetInputs.UpdateBuilds` | doom/d_net.c:377-410 | an update makes as many tics as skiptics leaves and as fit within five of the tic being run, and skiptics shrinks by the ticks that passed |
| `NetInputs.BuildsInputs` | doom/d_net.c:398-410 | each new command has the moves, turn, chat and buttons of its input, in order |
| `NetProgress.RunAdvances` | doom/d_net.c:741-767 | in every reachable state a gametic for which all commands are there is executed and counted, and stops nothing |
| `NetProgress.DriftIsFound` | doom/g_game.c:681-693 | the node stops exactly when, past the first twelve gametics, some player's command bears another sample than the own history yields |
| `NetProgress.HearTakes` | doom/d_net.c:314-356 | a packet that joins on makes all its tics known, one that comes too early is asked for again, an old one changes nothing |
| `NetProgress.HearCounts` | doom/d_net.c:302-313 | a request is honoured when the count has run down, which starts it again at ten; every other packet counts down by one |
| `NetProgress.RequestIsHeard` | doom/d_net.c:302-313 | of any repeated requests in a row, more than the count, one is honoured |
| `NetProgress.SendPosts` | doom/d_net.c:413-441 | an update that does not stop sends every other node all tics from where sending resumes, with the request for what it misses; sending resumes extratics before the end |
| `NetProgress.OwnTicsKnown` | doom/d_net.c:146-154 | through the rebound packet a node knows all its own tics, if sending to itself resumes no later than it knows |
| `NetProgress.LossIsRepaired` | doom/d_net.c:302-441 | a node that misses tics of another has them all after its request and the answer, unless the answer would exceed twelve tics |
| `NetAlarm.NoFalseAlarm` | doom/g_game.c:681-693 | in every reachable state no node has stopped with a consistency failure |
| `NetAlarm.NoAlarm` | doom/g_game.c:681-693 | no gametic that may run raises the alarm: each command's sample equals the one in the slot it is compared with |
| `NetAlarm.PrefixAgrees` | doom/g_game.c:656-664 | the histories that two nodes have run agree as far as both go |
| `NetAlarm.LeadsQuiet` | doom/g_game.c:252-253 | every run keeps the samples in step with the tics executed |
| `NetStale.TooManyTicsExactly` | doom/d_net.c:416-423 | sending stops with the error if and only if a retransmit request reaches back more than twelve tics |
| `NetStale.StaleRequestStops` | doom/d_net.c:303-313 | a run of two nodes in which a late request stops the game, although every packet is at most 64 tics old |
| `NetInvariant.StartInv` | doom/d_net.c:555-594 | the game starts in order |
| `NetInvariant.Windows` | doom/d_net.c:398-410 | the invariant implies the windows of the rings |
| `NetSteps.StepInv` | doom/d_net.c:261-446 | every step of every node keeps the invariant of the whole game |
| `NetSteps.ReachableInv` | doom/d_net.c:261-770 | the invariant holds in every reachable state |
| `NetSteps.SendInv` | doom/d_net.c:368-446 | building and sending keeps the invariant |
| `NetSteps.HearInv` | doom/d_net.c:261-358 | taking a packet of the network keeps it |
| `NetSteps.HearSelfInv` | doom/d_net.c:146-154 | taking the rebound packet keeps it |
| `NetSteps.RunInv` | doom/d_net.c:741-767 | running a gametic keeps it |
| `NetSteps.PacketCarries` | doom/d_net.c:416-440 | a packet holds the commands its player issued for the tics it names |
| `NetSteps.TakeRing` | doom/d_net.c:340-356 | the copy loop leaves every command in its slot |
| `NetSteps.BuildTicsRing` | doom/d_net.c:398-410 | the local ring holds the last twelve commands built |
| `NetSteps.BlankedAt` | doom/d_net.c:751-766 | only the command that will run again loses chat and special buttons |
| `NetSteps.RowCanon` | doom/g_game.c:656-664 | the commands fetched are those the players issued |
| `NetNode.BuildTicsKeeps` | doom/d_net.c:398-410 | building extends what was issued and touches nothing else |
| `NetBridge.UpdateLeads` | doom/d_net.c:368-446 | a NetUpdate of a node is a run of steps of the system, whatever the network had for it in time |
| `NetBridge.HeardLeads` | doom/d_net.c:261-358 | a GetPackets is a run of hearing steps |
| `NetBridge.TurnLeads` | doom/d_net.c:636-770 | so is a gametic, and so is the slowing down of a node that is ahead |
| `NetBridge.TurnsReach` | doom/d_net.c:636-770 | whatever turns the machines take, the state of all of them is a reachable one, so that the theorems about all runs hold in it |
| `NetBridge.PlaysLeads` | doom/d_net.c:636-770 | what one machine does in its main loop, its mail coming in time, leads to a reachable state in which only this machine has changed |
| `NetDriver.Machine.constructor` | doom/d_net.c:555-594 | the arrays of a fresh node |
| `NetDriver.Machine.BuildTiccmds` | doom/d_net.c:398-410 | the build loop computes the function of the node whose commands `NetInputs.BuildsInputs` identifies |
| `NetDriver.Machine.MakePacket` | doom/d_net.c:420-440 | the packet copied out of the local ring |
| `NetDriver.Machine.SendPackets` | doom/d_net.c:416-441 | the send loop, the packets in order, and its error |
| `NetDriver.Machine.CopyCmds` | doom/d_net.c:340-356 | the copy loop into the ring of the sender |
| `NetDriver.Machine.TakePacket` | doom/d_net.c:303-356 | one packet: resend bookkeeping, missed packets, duplicates and new commands |
| `NetDriver.Machine.GetPackets` | doom/d_net.c:192-358 | the rebound packet first, then the mail in order |
| `NetDriver.Machine.NetUpdate` | doom/d_net.c:368-446 | the new state and the packets sent, as the function of the old state, the ticks, the input and the mail that `NetInputs` and `NetProgress` describe |
| `NetDriver.Machine.CheckSamples` | doom/g_game.c:681-693 | the alarm is raised exactly on a mismatch, and the samples are renewed |
| `NetDriver.Machine.RunGametic` | doom/g_game.c:656-693 | one gametic, or a consistency failure exactly when some player's sample differs |
| `NetDriver.Machine.LowTic` | doom/d_net.c:655-665 | the least of nettics, or MAXINT if none is less |
| `NetDriver.TicsToRunIs` | doom/d_net.c:666-677 | how many tics are run: never more than there are, as many as the clock asks for, one more if two more are there, and at least one |
| `NetDriver.Machine.RunWholeTic` | doom/d_net.c:741-767 | ticdup gametics; the error "gametic>lowtic" is unreachable |
| `NetDriver.Pacer.Sample` | doom/d_net.c:698-711 | a node slows down if and only if it was ahead of the key player in each of the last four frames |
| `NetDriver.Machine.Adapt` | doom/d_net.c:686-712 | the key player keeps its skiptics; any other node compares its last tic with that of the key player and sets skiptics, which is a step of the system, if and only if it was ahead in each of the last four frames |
| `NetDriver.Machine.WaitForTics` | doom/d_net.c:714-736 | the updates of the wait; without giving up all the tics asked for are there |
| `NetDriver.Machine.RunTics` | doom/d_net.c:738-769 | just so many tics, each followed by an update |
| `NetDriver.Machine.TryRunTics` | doom/d_net.c:636-770 | whatever the clock and the network do: one update, perhaps the slowing down, the updates of the wait, then exactly the tics that the clock asks for and that are there, each with ticdup gametics for which all commands have arrived and an update; it waits only if no tic was there, gives up when its time is over, and then runs none; both its errors are unreachable |
| `Level.OpeningIsCommonSpace` | doom/p_maputl.c:300-332 | the opening is the space inside both sectors, the same from either side, and lowfloor the lower floor |
| `SoundFlood.FloodIsExact` | doom/p_enemy.c:105-149 | a finished search has reached exactly the sectors within one blocking line, at least cost |
| `SoundFlood.PathBounds` | doom/p_enemy.c:105-149 | every path with at most one blocking line bounds the class of its end |
| `SoundFlood.HopIs` | doom/p_enemy.c:126-147 | the code goes on through a line exactly to the sector on its other side, exactly when it has two sides and some height is inside both sectors, and sees exactly the lines flagged as sound-blocking |
| `SoundFlood.Noise.RecursiveSound` | doom/p_enemy.c:105-149 | ends on every graph, cyclic or not, keeps the search in order, only improves marks |
| `SoundFlood.Noise.NoiseAlert` | doom/p_enemy.c:158-166 | a sector is marked if and only if some way through open two-sided lines crosses at most one sound-blocking line; soundtraversed is one plus the least number of them on any way; all other marks stay |
| `Chains.Lists.Push` | doom/p_maputl.c:404-449 | linking puts the thing in front of one list and leaves the others; all lists stay finite, acyclic and linked back |
| `Chains.Lists.Unlink` | doom/p_maputl.c:347-386 | unlinking takes just this thing out of its list |
| `BlockMap.Things.SetThingPosition` | doom/p_maputl.c:395-450 | the thing is on exactly the lists that its place and flags call for |
| `BlockMap.Things.UnsetThingPosition` | doom/p_maputl.c:347-386 | the thing is on no list, the others are where they were |
| `BlockMap.Things.MoveTo` | doom/p_map.c:486-497 | unlink, move and link keep every list in order and change only this thing |
| `BlockMap.Things.Perform` | doom/p_mobj.h:101-109 | so does every sequence of calls that honours the rule, whatever its length |
| `BlockMap.BlockOfIs` | doom/p_maputl.c:425-449 | a thing of the blockmap is listed in the block of 128 units square that its origin lies in |
| `BlockMap.SectorOfIs` | doom/p_maputl.c:404-421 | and by its sector, unless it is one that no sector lists |
| `BlockScan.OverlapIsScanned` | doom/p_map.c:415-423 | a thing of up to one unit above MAXRADIUS that overlaps the box has its origin in a scanned block |
| `BlockScan.ScanReaches` | doom/p_map.c:415-423 | overlapping things of a radius are always scanned, on every map and for every mover, if and only if the radius is at most one unit above MAXRADIUS |
| `BlockScan.LargeIsMissed` | doom/p_map.c:415-423 | for every larger radius a place where a solid thing of that radius is in a player's way and in no scanned block |
| `BlockScan.SweepIsPresent` | doom/p_maputl.c:512-537 | the scan meets exactly the linked things of its blocks |
| `BlockScan.SweepOnce` | doom/p_maputl.c:512-537 | and none of them twice |
| `BlockScan.BlockThingsIterator` | doom/p_maputl.c:512-537 | the things of the block in order, up to the first that answers false |
| `BlockScan.OfferThings` | doom/p_map.c:415-428 | the things of the scanned blocks, and no others, are offered, each once, unless an earlier answer stops the scan; the overlapping things up to one unit above MAXRADIUS are among them |
| `BlockScan.CheckThingIs` | doom/p_map.c:252-343 | PIT_CheckThing objects exactly to what is in the way: never the mover itself, and only what overlaps; to a walker what is solid, to a flying skull anything, to a missile at its height what is solid or shootable and its shooter's kin, but not its shooter |
| `BlockScan.AlonePasses` | doom/p_map.c:270-272 | a mover alone on the map is never stopped by a thing, nor a walker by things that are not solid |
| `BlockScan.CheckThings` | doom/p_map.c:252-343 | the scan passes if and only if no thing of the scanned blocks is in the way |
| `BlockScan.PassedThings` | doom/p_map.c:252-343 | then no thing on the map is in the way that is not larger than one unit above MAXRADIUS |
| `Fixed.FixedMulExact` | doom/m_fixed.c:43-49 | products by a slope of map size never wrap |
| `LineSide.SidesExact` | doom/p_maputl.c:65-100 | the side test without wrap-around, for every point whose distance from the start of the line fits an int |
| `LineSide.SideMono` | doom/p_maputl.c:65-100 | the truncated products keep the order of such points across the line |
| `LineSide.AxisSide` | doom/p_maputl.c:74-89 | for lines along an axis the side of every point off the line, by the sign of the cross product |
| `LineSide.ObliqueSide` | doom/p_maputl.c:91-100 | for all other lines between whole map units: what counts as front is in front, and a point in front is missed only within one step of rounding |
| `LineSide.BoxSideDecides` | doom/p_maputl.c:109-153 | the side of such a box is the side of a point in it if and only if the point is not on a vertical line |
| `LineSide.EdgeOnVertical` | doom/p_maputl.c:65-153 | a box on one side of a vertical line along its edge, with a point that counts to the other side |
| `LineSide.BoxCrossingIsReal` | doom/p_maputl.c:109-153 | a crossing box has points on both sides if and only if it does not just touch a vertical line with its right edge |
| `LineClip.NarrowedUnique` | doom/p_map.c:189-247 | tmfloorz, tmceilingz and tmdropoffz depend only on the set of lines examined |
| `LineClip.TouchesIs` | doom/p_map.c:191-198 | a line is touched exactly when the boxes overlap and the body's box reaches to both sides of the line, a vertical one also with the right edge |
| `LineClip.WhoIsStopped` | doom/p_map.c:209-222 | a touched line stops everything if it has one side, all but missiles if it blocks, and all but missiles and players if it blocks monsters |
| `LineClip.FitsIs` | doom/p_map.c:466-483 | the limits of P_TryMove, with steps and drops of 24 map units |
| `LineClip.BoxBlocksAre` | doom/p_map.c:430-439 | the blocks scanned for lines are exactly those that hold a point of the box |
| `LineClip.BoxOfIs` | doom/p_map.c:394-397 | the box holds the points within the radius along both axes |
| `LineClip.SpecialsOnce` | doom/p_map.c:239-244 | the lines noted are the touched special lines, each once |
| `LineClip.SpecialsFit` | doom/p_map.c:239-244 | they are never more than the special lines of the blocks that the body touches and that let it through, and just as many after a check that passes |
| `LineClip.NineAreTooMany` | doom/p_map.c:67-70 | a terrain with nine special lines at one place, all of which let the player through |
| `LineClip.BlockedIsTooLate` | doom/p_map.c:239-244 | a terrain where nine special lines are noted before a wall blocks the move |
| `LineClip.ExaminedIs` | doom/p_maputl.c:471-506 | a scan that meets the entries of the block lists in order, up to the first line that stops the body, examines each line once, at its first entry; it meets them all if and only if nothing stops the body |
| `LineClip.HeightsNarrowed` | doom/p_map.c:226-237 | the heights after any lines are the extremes over those that are touched and let through |
| `LineClip.CrossingsAre` | doom/p_map.c:499-513 | triggered are exactly the noted lines that have the old and the new place on different sides, with the old side |
| `LineClip.Clipper.NoteSpecial` | doom/p_map.c:239-244 | the eight slots hold the lines noted, and the store has left the array if and only if there were more than eight |
| `LineClip.Clipper.CheckLine` | doom/p_map.c:189-247 | the line stops the body, or narrows the heights and is noted when special, in the array or past it |
| `LineClip.Clipper.BlockLinesIterator` | doom/p_maputl.c:471-506 | the entries of the block are met in order up to the first line that stops the body, and a line is examined only at its first entry |
| `LineClip.Clipper.CheckPosition` | doom/p_map.c:374-442 | passes if and only if no thing of the scanned blocks is in the way and no listed line stops the body; then every listed line was examined once, the heights are the extremes over base sector and touched lines, and spechit has each touched special line once; whenever the things let it pass, exactly the lines up to the first that stops it are examined, in order, and the special ones among those let through are stored, inside the eight slots if and only if there are no more |
| `LineClip.Clipper.MayMove` | doom/p_map.c:450-484 | the checks of P_TryMove: passes if and only if no scanned thing is in the way, no line stops the body and the thing fits; floatok if and only if it would fit at another height |
| `LineClip.Clipper.CrossSpecials` | doom/p_map.c:499-513 | the loop from the last noted line to the first |
| `LineClip.Clipper.Relocate` | doom/p_map.c:486-516 | the thing is relinked between the heights found, all lists stay in order, and the crossed lines are triggered |
| `LineClip.Clipper.TryMove` | doom/p_map.c:450-517 | moves if and only if no scanned thing is in the way, no line stops the body and the thing fits, with floatok, the floor and ceiling heights found and the special lines crossed, last noted first; keeps all lists in order and all other things where they are |
| `Intercepts.InOrderUnique` | doom/p_maputl.c:682-730 | the stable order by distance is unique |
| `Intercepts.CompleteOnce` | doom/p_maputl.c:682-730 | a complete visit has every intercept within maxfrac exactly once |
| `Intercepts.Nearest` | doom/p_maputl.c:698-706 | the first of the nearest |
| `Intercepts.TraverseIntercepts` | doom/p_maputl.c:682-730 | the traverser sees exactly the stable order by distance within maxfrac, cut after its first false answer |
| `WeaponTables.AttackShape` | doom/info.c:136-225 | every attack sequence takes the checked ammo in its fire frame (the chaingun once more in the second), rechecks only behind it, and only a last, rechecking frame has no duration |
| `WeaponTables.FlashTics` | doom/info.c:136-225 | only the last light state of a flash has no duration |
| `Weapons.PreferredIsLoaded` | doom/p_pspr.c:183-232 | the weapon chosen when ammo is out is owned and can be fired |
| `Weapons.PreferredIsFirst` | doom/p_pspr.c:183-232 | the weapon chosen is the only one that is first among the usable ones in the order of preference; it is owned and loaded |
| `Weapons.Set` | doom/p_pspr.c:58-102 | setting a state ends, leaves a state with a duration, and takes ammo for at most one shot |
| `Weapons.Act` | doom/p_pspr.c:88-95 | the action rests, or leaves a state without duration whose successor comes earlier in the measure |
| `Weapons.RaiseIt` | doom/p_pspr.c:422-441 | A_Raise keeps the player in order and conserves ammo |
| `Weapons.LowerIt` | doom/p_pspr.c:384-416 | so does A_Lower; the dead stay down |
| `Weapons.BringUpWeapon` | doom/p_pspr.c:138-154 | so does P_BringUpWeapon |
| `Weapons.WeaponIsReady` | doom/p_pspr.c:281-334 | so does A_WeaponReady; when it fires is stated by `WeaponFire.ButtonFires` |
| `Weapons.CheckAmmo` | doom/p_pspr.c:161-240 | true if and only if the weapon is loaded, and then nothing changes |
| `Weapons.FireWeapon` | doom/p_pspr.c:246-257 | P_FireWeapon keeps the player in order and conserves ammo |
| `Weapons.ReFireIt` | doom/p_pspr.c:343-362 | A_ReFire clears refire, or leaves a steady state; which of the two is stated by `WeaponFire.HeldFires` and `WeaponFire.ReleasedStops` |
| `Weapons.Die` | doom/p_inter.c:699-707 | a dying player lowers the weapon and fires no shot |
| `Weapons.Fire` | doom/p_pspr.c:550-754 | a shot takes what was checked tics before, and never more than there is |
| `Weapons.AttackFrame` | doom/p_pspr.c:343-754 | every action of an attack sequence rests or falls through |
| `Weapons.SetFlash` | doom/p_pspr.c:448-455 | the flash ends in a state with a duration or none, and touches nothing else |
| `WeaponRuns.MovePsprites` | doom/p_pspr.c:851-877 | a tic keeps the player in order |
| `WeaponRuns.GiveAmmo` | doom/p_inter.c:73-160 | taken unless full; the new amount is the sum up to the limit; other ammo stays |
| `WeaponRuns.GiveWeapon` | doom/p_inter.c:167-220 | the weapon is owned afterwards and comes up if new; ammo never falls; it is taken if and only if it does not stay and is new or its ammo is not full |
| `WeaponRuns.GiveBackpack` | doom/p_inter.c:589-599 | only ammo, limits and the pending weapon change |
| `WeaponRuns.BackpackGives` | doom/p_inter.c:589-599 | the first backpack doubles every limit; every ammo grows by a clip, twice as much when doubled, up to its limit |
| `WeaponRuns.ChangeWeapon` | doom/p_user.c:281-318 | only an owned weapon other than the one in hand becomes pending; which one is stated by `WeaponChoice.KeyChanges` |
| `WeaponRuns.FullArsenal` | doom/st_stuff.c:563-573 | every weapon owned and every ammo full; nothing else changes |
| `WeaponRuns.Berserk` | doom/p_inter.c:495-502 | health up to the maximum and the fist pending, whatever else is owned; nothing else changes |
| `WeaponRuns.ChainsawCheat` | doom/st_stuff.c:657-662 | the chainsaw is owned; nothing else changes |
| `WeaponRuns.SetupPsprites` | doom/p_pspr.c:831-842 | keeps the player in order and fires no shot |
| `WeaponRuns.Reborn` | doom/g_game.c:800-833 | a reborn player has full health, fist and pistol, fifty bullets and the first limits, and is in order |
| `WeaponRuns.AllRuns` | doom/p_pspr.c:58-441 | over every sequence of tics, buttons, pickups of ammo, weapons, backpacks and berserk packs, weapon cheats, wounds and healing, deaths and rebirths: ammo within limits, the weapon in hand owned and shown, the ammo of an attack under way still there |
| `WeaponRuns.LifeLedger` | doom/p_inter.c:73-220 | over a life, ammo plus what was shot only grows by pickups and the ammo cheat, and is constant without them; at most one shot an event |
| `WeaponSwitch.SwitchCompletes` | doom/p_pspr.c:384-441 | a pending weapon comes up within a computed number of tics |
| `WeaponSwitch.SetupRaises` | doom/p_pspr.c:831-842 | the weapon in hand is on its way up from the bottom, with no flash and nothing pending |
| `WeaponFire.ButtonFires` | doom/p_pspr.c:311-334 | with a loaded weapon up and nothing pending, the button starts the attack if and only if it is not held over from before or the weapon is neither launcher nor BFG; otherwise the weapon stays ready and bobs, and the button is let go of when the player does |
| `WeaponFire.TriggerShoots` | doom/p_pspr.c:246-257 | from the button exactly one shot of the weapon, with the ammo it needs, comes after the tics of the frames before the fire frame, and none earlier, whatever happens meanwhile |
| `WeaponFire.ShotComes` | doom/p_pspr.c:550-754 | so does the shot of any attack under way |
| `WeaponFire.IdleIsSilent` | doom/p_pspr.c:281-362 | without the button, and with no shot under way, none is ever fired |
| `WeaponFire.HeldFires` | doom/p_pspr.c:343-356 | a held button starts the attack again when the sequence looks at it, as long as there is ammo, and the shot of the first frame comes at once |
| `WeaponFire.ReleasedStops` | doom/p_pspr.c:357-362 | otherwise refire is cleared, and an empty weapon goes down for the preferred one |
| `WeaponFire.RechecksAre` | doom/info.c:136-225 | every sequence looks at the button in its last frame, the super shotgun also when it is closed |
| `WeaponFire.SecondShot` | doom/p_pspr.c:733-754 | the chaingun fires a second shot if a bullet is left |
| `WeaponFire.ShotFlashes` | doom/p_pspr.c:550-754 | a shot that does not kill the player lights the flash of its weapon and the surroundings; those of launcher and BFG do not |
| `WeaponFire.ShotsAre` | doom/d_items.c:47-130 | what the shot of each weapon takes |
| `WeaponFire.DelaysAre` | doom/info.c:136-225 | and how many tics it comes after the button |
| `WeaponChoice.KeyChanges` | doom/p_user.c:281-318 | which weapon each number key brings up, with the preferences for chainsaw and super shotgun |
| `WeaponChoice.FirstAmmo` | doom/p_inter.c:109-159 | the first ammo of its kind brings up its weapon for a player with fist or pistol, any more does not |
| `WeaponChoice.WeaponBrings` | doom/p_inter.c:175-211 | the ammo that comes with a weapon: found, dropped, or placed in a net game |
| `WeaponChoice.LoadIs` | doom/p_inter.c:56-104 | what the clips of each ammo hold |
| `WeaponChoice.DeathLowers` | doom/p_inter.c:699-707 | a dying player begins to lower the weapon |
| `WeaponChoice.DeadSink` | doom/p_pspr.c:388-405 | which sinks to the bottom and stays there |
| `WeaponChoice.FlashGoesOut` | doom/p_pspr.c:851-877 | when its frames are over the flash has gone and with it the light |
| `WeaponCode.PlayerSprites.SetPsprite` | doom/p_pspr.c:58-102 | the loop with its re-entrant actions computes Set |
| `WeaponCode.PlayerSprites.SetFlashSprite` | doom/p_pspr.c:58-102 | the same for the flash |
| `WeaponCode.PlayerSprites.RaiseWeapon` | doom/p_pspr.c:422-441 | A_Raise in place |
| `WeaponCode.PlayerSprites.LowerWeapon` | doom/p_pspr.c:384-416 | A_Lower in place |
| `WeaponCode.PlayerSprites.BringUp` | doom/p_pspr.c:138-154 | P_BringUpWeapon in place |
| `WeaponCode.PlayerSprites.WeaponReady` | doom/p_pspr.c:281-334 | A_WeaponReady in place: it does what `WeaponFire.ButtonFires` states |
| `WeaponCode.PlayerSprites.CheckAmmunition` | doom/p_pspr.c:161-240 | P_CheckAmmo in place |
| `WeaponCode.PlayerSprites.PickWeapon` | doom/p_pspr.c:183-232 | picks the first usable weapon in the order of preference |
| `WeaponCode.PlayerSprites.FireIt` | doom/p_pspr.c:246-257 | P_FireWeapon in place |
| `WeaponCode.PlayerSprites.ReFireWeapon` | doom/p_pspr.c:343-362 | A_ReFire in place |
| `WeaponCode.PlayerSprites.Killed` | doom/p_pspr.c:265-270 | P_DropWeapon in place |
| `WeaponCode.PlayerSprites.FireShot` | doom/p_pspr.c:550-754 | the A_Fire actions in place |
| `WeaponCode.PlayerSprites.MoveSprites` | doom/p_pspr.c:851-877 | P_MovePsprites in place |
| `WeaponCode.PlayerSprites.PickUpAmmo` | doom/p_inter.c:73-160 | P_GiveAmmo in place |
| `AutomapClip.CutOnLine` | doom/am_map.c:924-952 | each cut stays in the box of the line and within one pixel of it; on the bottom side the row below the frame is meant |
| `AutomapClip.ClipProgress` | doom/am_map.c:915-967 | a round decides the line or leaves fewer outcode bits; no division by zero |
| `AutomapClip.RejectIsSound` | doom/am_map.c:912-913 | what is rejected has no point in the frame |
| `AutomapClip.RoundKeepsPixel` | doom/am_map.c:915-967 | a round cuts off no pixel of the frame that lies on the line, so it does not reject a line that has one |
| `AutomapClip.Clip` | doom/am_map.c:909-969 | what is accepted lies in the frame and in the box of the line |
| `AutomapClip.Rounds` | doom/am_map.c:915-967 | at most four rounds |
| `AutomapClip.AxisExact` | doom/am_map.c:909-969 | lines along an axis are cut exactly |
| `AutomapClip.InsideIsKept` | doom/am_map.c:909-969 | a line in the frame is left alone |
| `AutomapDrops.ShownEndIsKept` | doom/am_map.c:909-969 | a line with an end in the frame is kept, wherever the other end lies |
| `AutomapDrops.SafeIsKept` | doom/am_map.c:909-969 | a line with a pixel in the frame is kept unless its first end lies off a corner and it goes from above the frame to below it or back |
| `AutomapDrops.RiskyIsDropped` | doom/am_map.c:909-969 | with any such outcodes, in every frame from two by two pixels on, some line with a pixel in the frame is dropped |
| `AutomapDrops.DropsExactly` | doom/am_map.c:909-969 | so the outcodes of the ends decide whether all visible lines are kept |
| `AutomapDrops.MirrorClip` | doom/am_map.c:909-969 | the clipper treats left and right alike |
| `AutomapClip.ClipMline` | doom/am_map.c:846-969 | the loop computes Clip in at most four rounds; true implies both ends in the frame |
| `AutomapClip.MapRejects` | doom/am_map.c:877-901 | before the transformation just the lines beyond one side of the map window are rejected |
| `AutomapClip.FrameIsScaled` | doom/am_map.c:903-907 | the frame coordinates are the scaled distances from the edges of the window, rounded down |
| `AutomapClip.ClipFits` | doom/am_map.c:903-952 | whatever the line and the map window, in frames of less than 0x8000 pixels each way every product and every coordinate of every round fits 32 bits |
| `AutomapDraw.PixelsFollowLine` | doom/am_map.c:1006-1048 | from a to b, one pixel for every step of the longer axis, in the box, never more than half a pixel off the line |
| `AutomapDraw.ErrorStep` | doom/am_map.c:1019-1047 | the sign of d tells whether the next row or column is nearer |
| `AutomapDraw.PutDot` | doom/am_map.c:1004 | one cell of the frame buffer |
| `AutomapDraw.DrawFlat` | doom/am_map.c:1017-1032 | exactly these pixels get the colour; the loop ends and stays in the frame |
| `AutomapDraw.DrawSteep` | doom/am_map.c:1033-1048 | the same for steep lines |
| `AutomapDraw.DrawFline` | doom/am_map.c:977-1049 | the pixels of the line, or the complaint exactly when an end is out of the frame |
| `AutomapDraw.DrawMline` | doom/am_map.c:1055-1064 | the clipped part is drawn and the complaint never comes |
| `Melt.FinishedAfter` | doom/f_wipe.c:192-218 | a column has finished if and only if it has had the ticks it needs |
| `Melt.MeltPlace` | doom/f_wipe.c:196-217 | where a column is after any number of ticks: 1, 3, 7, 15, 31 rows down, then eight more a tick, up to the height of the screen |
| `Melt.MeltLater` | doom/f_wipe.c:192-195 | a delay only puts this off |
| `Melt.MeltBound` | doom/f_wipe.c:156-218 | no column needs more than the bound, and the slowest needs just that |
| `Melt.MeltCompose` | doom/f_wipe.c:188-220 | ticks in several calls add up |
| `Melt.AllFinished` | doom/f_wipe.c:196-217 | when all columns have finished the screen is the new image |
| `Melt.TurnedBack` | doom/f_wipe.c:50-70 | turning columns back gives the image |
| `MeltCode.ColMajorXform` | doom/f_wipe.c:50-70 | the transposition in place |
| `MeltCode.Wipe.InitMelt` | doom/f_wipe.c:140-169 | the old image on the screen, both images turned, delays within 15 ticks and one of their neighbours, as the random numbers decide |
| `MeltCode.Wipe.MeltColumn` | doom/f_wipe.c:192-218 | a column shows the new image above its top and the old one, moved down, below |
| `MeltCode.Wipe.DoMelt` | doom/f_wipe.c:171-224 | so do all columns after any number of ticks; done if and only if nothing was left to move, and then the screen is the new image |
| `MeltCode.Wipe.Display` | doom/d_main.c:333-350 | however the ticks arrive, the wipe is over within the bound and leaves the new image |
| `Demo.DecodeEncode` | doom/g_game.c:1491-1523 | reading back gives the moves written and the turn rounded |
| `Demo.BytesMean` | doom/g_game.c:1491-1503 | what the four bytes of a command mean |
| `Demo.RoundedIs` | doom/g_game.c:1502-1513 | the turn is the nearest multiple of 256; the largest wrap around |
| `Demo.EncodeApplied` | doom/g_game.c:1506-1523 | recording what was replayed writes the same bytes |
| `Demo.MarkerReachable` | doom/d_main.c:933-951 | some input looks like the end of a demo if and only if the turbo scale is 256 or more |
| `Demo.DefaultIsUnmarked` | doom/g_game.c:413-423 | at default speed no command does |
| `Demo.BuildTiccmd` | doom/g_game.c:413-423 | the moves are clamped to the limit and then kept to a byte, turn and buttons are those of the input; what fits is not changed |
| `Demo.HeaderBack` | doom/g_game.c:1549-1606 | a game whose settings fit into bytes is set up as recorded |
| `Demo.HeaderMeans` | doom/g_game.c:1588-1606 | what the bytes of the header mean |
| `DemoCode.KeptAll` | doom/g_game.c:1506-1523 | nothing is lost if and only if everything fits and no command looks like the end |
| `DemoCode.DefaultReplays` | doom/g_game.c:413-423 | every sequence of inputs at default speed is recorded up to the last command that fits, with the clamped moves, turns and buttons of the inputs, and its replay makes the moves, turns and buttons applied while recording |
| `DemoCode.ReRecording` | doom/g_game.c:1506-1523 | recording a playback gives the same demo |
| `DemoCode.Recorder.BeginRecording` | doom/g_game.c:1549-1567 | the header bytes |
| `DemoCode.Recorder.WriteTiccmd` | doom/g_game.c:1506-1523 | four bytes and the command applied, or the end: on the quit key, for lack of space, or at a marker |
| `DemoCode.Recorder.CheckDemoStatus` | doom/g_game.c:1677-1684 | the demo is closed by the marker |
| `DemoCode.Recorder.RecordDemo` | doom/g_game.c:1506-1523 | the file of a whole recording, and the commands applied meanwhile |
| `DemoCode.Playback.DoPlayDemo` | doom/g_game.c:1582-1606 | the header is read back, or refused for another version |
| `DemoCode.Playback.ReadTiccmd` | doom/g_game.c:1491-1503 | one command, or the end |
| `DemoCode.Playback.PlayDemo` | doom/g_game.c:1491-1503 | the playback of a recording applies the recorded commands, all of them, and ends just behind the last |
| `Numbers.ValueOfDigits` | doom/libc_shim.c:318-325 | the digits denote the number |
| `Numbers.TextLength` | doom/libc_shim.c:326-346 | the length is the maximum of width and sign plus the maximum of digits and precision |
| `Numbers.TextShape` | doom/libc_shim.c:326-346 | which characters these are: blanks or zeros fill the width by the flags, zeros fill the precision, the sign stands before the zeros, the digits are last |
| `Numbers.ParsedText` | doom/libc_shim.c:580-601 | parsing the text of any number, in any width, precision and flag, gives it back and stops behind it |
| `Numbers.ParsedAny` | doom/libc_shim.c:580-601 | what the parser makes of any string: blanks and tabs, a sign, digits or none, and the rest |
| `NumbersCode.DigitsBackwards` | doom/libc_shim.c:318-325 | the digits of any 32-bit magnitude fit the buffer |
| `NumbersCode.AppendDi` | doom/libc_shim.c:305-348 | the text of every 32-bit value is appended as far as there is room, and nothing else changes |
| `NumbersCode.Strtol` | doom/libc_shim.c:580-601 | the number at the start of the string and where it ends |
| `Stairs.Scan` | doom/p_floor.c:513-550 | the line gone through leads to a free sector; if there is none, every neighbour that fits already moves |
| `Stairs.ScanHeight` | doom/p_floor.c:513-535 | every line that leads on, up to the one gone through, raises the height by one stair |
| `Stairs.FlightIsStairway` | doom/p_floor.c:511-551 | a flight claims free sectors, each once, goes through the first line to the next sector, rises by a stair for every line that leads on up to that one, and stops only at its top |
| `Stairs.AscentIsGood` | doom/p_floor.c:483-551 | the same from the first sector on |
| `Stairs.BuildClaims` | doom/p_floor.c:452-554 | on every graph the call ends and claims only free sectors, each once |
| `Stairs.BuildGood` | doom/p_floor.c:452-554 | every flight of the call is a good one |
| `Stairs.BuildKeeps` | doom/p_floor.c:479-481 | a sector that moves keeps its mover |
| `Stairs.Floors.FindSectorFromLineTag` | doom/p_spec.c:433-445 | the least tagged sector above the start, or -1 |
| `Stairs.Floors.ClimbFrom` | doom/p_floor.c:511-551 | the do-while loop computes the flight |
| `Stairs.Floors.BuildStairs` | doom/p_floor.c:452-554 | the nested loops with their shared index compute the whole construction, whose heights `StairHeights.StaircaseRises` states |
| `StairHeights.StepsMove` | doom/p_floor.c:483-549 | every step of every flight was free and is on its way to its height |
| `StairHeights.PlainRises` | doom/p_floor.c:503-549 | step k of an ordinary staircase goes k + 1 stairs above the floor of its first sector |
| `StairHeights.LevelIsPlain` | doom/p_floor.c:503-549 | every staircase is an ordinary one if from no sector more than one line leads on in its texture, whatever already moves |
| `StairHeights.StaircaseRises` | doom/p_floor.c:490-549 | so after the call, with stairs of 8 units at a quarter unit a tic, or 16 at four |
| `StairSkips.BuildSkips` | doom/p_floor.c:473-552 | a tagged sector left without a mover was passed by: a flight went from a tagged sector below it to a sector above it, on every step through a line that comes before any line to it |
| `StairSkips.SkipsExactly` | doom/p_floor.c:473-552 | a tagged sector can be left behind, for some sectors already moving, if and only if such a chain of sectors leads around it |
| `StairSkips.AllRaised` | doom/p_floor.c:473-552 | if no line between sectors of one texture jumps over a tagged sector, every tagged sector is raised, whatever already moves |
| `StairSkips.JumpSkips` | doom/p_floor.c:473-552 | one line that jumps over a sector, comes before any line to it and ends where none leads to it, is enough to leave it behind |
| `StairSkips.SkipHappens` | doom/p_floor.c:473-552 | a level where that happens although nothing moves yet |

## Left out

- Games without a net: singletics, and the silence of HSendPacket during demo playback.
- Node exit, drones, setup and start arbitration of a net game, and the renumbering of the local node.
- The clock adaptation of TryRunTics beyond skiptics: gametime itself is not kept; the clock ticks of each call are any number.
- Delivery after more than 64 tics: the model delivers a packet only while its tic numbers lie within 64 tics of the receiver's maketic.
- Overflow of 32-bit integers outside `LineSide`, `Fixed`, `Demo` and `AutomapClip`: tic counters, map coordinates and the result of strtol are unbounded integers.
- NetAlarm.NoFalseAlarm: holds for a simulation that is a function of the commands run; that the game's simulation is one is an assumption.
- BlockScan.CheckThings: damage, pickups and other side effects of PIT_CheckThing are not modelled, nor its re-entry through them.
- LineClip.Clipper.TryMove: says which special lines are triggered and from which side, not what they do; after the store into spechit has left the array it says nothing about them.
- Lines of a sector that do not border it: P_GroupLines gives every sector exactly its own lines, and the levels of `SoundFlood` are taken to be so.
- NetProgress.LossIsRepaired: says what four steps achieve; that they are ever taken depends on the network and the clocks.
- LineSide.BoxSideDecides: the slope of a line is taken from the signs of its steps, as FixedDiv gives it between vertices at whole map units.
- P_SlideMove, P_AimLineAttack, P_RadiusAttack, sight checks and P_PathTraverse: they rest on divisions with rounding; the distances of intercepts are given data.
- The states of the psprites' sideways bob (sx), sounds, the damage of shots and the powers of the player.
- Weapons.Set: the state S_DSNR1 of the super shotgun's dry click, which no other state leads to, is not in the tables.
- StairSkips.SkipsExactly: speaks of a level with any sectors already moving; for one given set of moving sectors only StairSkips.BuildSkips holds, since a sector passed by may be claimed by a later flight.
- AutomapClip.CutOnLine: bounds the error of each cut, not that of several cuts of one end together.
- AutomapClip.RoundKeepsPixel: speaks of one round; the next round works on the rounded line, on which the pixel need not lie. What the whole loop does is in AutomapDrops.
- AutomapDrops.DropsExactly: leaves out frames of one row or one column, in which the witnesses do not fit; AutomapDrops.SafeIsKept holds there too.
- The colour wipe, the menus, the automap's other drawing and the status bar: they would only add easy members.
- Number formats other than %d and %i.
- The kernel, the applications, and the loading and saving of games.
