# The Mistery of The Ruins — encounter screen, monster record and title menu

A Dafny model of three parts of the game:

- **The combat encounter screen** (`CombatScreen`). Its state is:
  - the ordered list of monsters;
  - the hero's life;
  - the highlighted button of the action bar (Battle, Item, Defend, Escape).

  It builds 1 to 3 monsters with identical starting stats, each with its own name and its own drawn sprite. Battle strikes the first monster that is still alive and removes it if the death check holds of its new life. When the list is empty the combat ends. The monsters then strike back in list order until one strike leaves the hero dead. Item and Defend run only that monster phase; Escape ends the combat. LEFT and RIGHT move the highlight and stop at both ends. ENTER/SPACE, the digits 1–4 and ESCAPE fire buttons.
- **The monster record** (`Monster`): a mutable bag of stats with one setter per field and no invariant between the fields.
- **The title menu** (`MainScreen`). The cursor over four labels wraps under UP/W and DOWN/S. The new-game dialog asks again until it gets a name that is not blank once trimmed, or a cancel. The selected label picks what ENTER does.

Layout of the model:

- `wrappers.dfy`: `Option`.
- `list_ops.dfy`: the `java.util.List` operations the screen uses (`indexOf`, `remove`) over a sequence, and the absence of duplicates.
- `characters.dfy`: the `Monster` class and `MonsterStats`, the value view of its fields.
- `encounter.dfy`: the rules of one turn stated on values. The roster is the monsters' stats in list order; the hero is its life. The damage rules of the game (`game.heroCombat`, `game.combat`, `game.checkGameOver`, in `Logic/Game.java`) are not part of this model. They enter as the three functions of a `Rules` value:
  - the hero's hit gives the target's new `actualLife`;
  - a monster's hit gives the hero's new life;
  - the death check is a predicate on a life.
- `combat_screen.dfy`: the `CombatScreen` class. Its methods change the list, the life and the highlight in place, and each is proved against the turn functions of `encounter.dfy`. The requests the screen makes of the rest of the game are recorded in a ghost log of effects: a strike by the hero, a strike by a monster, the end of the combat, game over.
- `text.dfy`: `String.trim`.
- `main_screen.dfy`: the `MainMenu` class, the dialog loop and the dispatch of `activateSelected`.

## Model

| member | source | states |
|---|---|---|
| Characters.Monster.constructor | src/Characters/Monster.java:20-31 | every argument is stored unchanged in its field; the loot starts empty and the dialogue unset |
| Characters.Monster.SetLife | src/Characters/Monster.java:37-39 | only `life` changes, to the value given |
| Characters.Monster.SetActualLife | src/Characters/Monster.java:45-47 | only `actualLife` changes, to any int given, with no clamping against 0 or `life` |
| Characters.Monster.SetActualWeapon | src/Characters/Monster.java:53-55 | only the weapon changes |
| Characters.Monster.SetVelocidad | src/Characters/Monster.java:61-63 | only `velocidad` changes |
| Characters.Monster.SetAttack | src/Characters/Monster.java:69-71 | only `attack` changes |
| Characters.Monster.SetMagic | src/Characters/Monster.java:77-79 | only `magic` changes |
| Characters.Monster.SetDefense | src/Characters/Monster.java:85-87 | only `defense` changes |
| Characters.Monster.SetLoot | src/Characters/Monster.java:93-95 | the loot list is replaced; no stat changes |
| Characters.Monster.SetLevel | src/Characters/Monster.java:101-103 | only `level` changes |
| Characters.Monster.SetDialogue | src/Characters/Monster.java:109-111 | the dialogue is replaced; no stat changes |
| Characters.StatsOfAt | src/GUI/CombatScreen.java:395-396 | the i-th entry of the roster is the i-th monster's current stats |
| Characters.StatsOfRemoveAt | src/GUI/CombatScreen.java:454 | removing a monster from the list removes its entry from the roster and keeps the others in order |
| ListOps.IndexOf | src/GUI/CombatScreen.java:452 | `indexOf` is absent exactly when the element is not in the list, and otherwise is the position of its first occurrence |
| ListOps.RemoveAt | src/GUI/CombatScreen.java:454 | `remove(idx)` drops that entry only and shifts the later ones down by one, in order |
| ListOps.RemoveFirst | src/GUI/CombatScreen.java:451-459 | `removeMonster` on a monster not in the list changes nothing; otherwise the result is the list with its first occurrence cut out, the entries before and after it kept in order (and one fewer of it in the multiset) |
| ListOps.IndexOfDistinct | src/GUI/CombatScreen.java:452 | in a list without duplicates, `indexOf` of the element at k is k |
| ListOps.RemoveAtDistinct | src/GUI/CombatScreen.java:454 | removing an entry keeps the list free of duplicates, removes that monster and keeps every other one |
| ListOps.DistinctAppend | src/GUI/CombatScreen.java:147 | appending a fresh monster keeps the list free of duplicates |
| Combat.ChooseRandomSprite | src/GUI/CombatScreen.java:171-176 | the default sprite path when the list is null or empty, otherwise an element of the list |
| Combat.DebugStats | src/GUI/CombatScreen.java:179-186 | the starting stats: life and actualLife 12 (so the monster starts alive), attack 4, defense 1, magic 0, and the weapon given |
| Combat.MonsterName | src/GUI/CombatScreen.java:146 | "Monstruo " followed by one digit from 1 to 9 |
| Combat.MonsterNamesDiffer | src/GUI/CombatScreen.java:144-146 | the monsters of one encounter get pairwise different names |
| Combat.CreateDebugMonster | src/GUI/CombatScreen.java:178-188 | a fresh monster with life and actualLife 12, attack 4, defense 1, magic 0, speed 6, level 1, the given name and sprite, and empty loot |
| Combat.CombatScreen.constructor | src/GUI/CombatScreen.java:143-158 | 1 + the drawn count (1 to 3) fresh, distinct monsters, each with the starting stats, named "Monstruo 1", "Monstruo 2", …, with the sprite drawn for it; highlight on the first button |
| Combat.NextSelection | src/GUI/CombatScreen.java:300-311 | on the bar: LEFT moves one button left except on the first, RIGHT one right except on the last, the result stays on the bar, and no other key moves the highlight |
| Combat.SelectionStaysOnBar | src/GUI/CombatScreen.java:300-311 | from a button of the bar, no sequence of keys moves the highlight off the bar |
| Combat.SelectionClampsAtBothEnds | src/GUI/CombatScreen.java:300-311 | LEFT on the first button and RIGHT on the last keep the highlight where it is |
| Combat.KeyCommand | src/GUI/CombatScreen.java:313-355 | ENTER/SPACE fire the highlighted button, digit n fires button n for n in 1..4, ESCAPE ends the combat; no other key fires anything |
| Combat.AttacksStep | src/GUI/CombatScreen.java:432-439 | the requests of the first i+1 strikes are those of the first i followed by the strike of monster i |
| Combat.MonsterPhase | src/GUI/CombatScreen.java:430-448 | the loop over the snapshot gives the hero's life of the phase function and requests the strikes of exactly its first `attacks` monsters in order, then game over if the hero died |
| Combat.StrikeThenPhase | src/GUI/CombatScreen.java:408-426 | the hero's strike requests followed by the phase's over the survivors are the requests of the whole Battle turn |
| Combat.CombatScreen.FindTarget | src/GUI/CombatScreen.java:394-400 | the loop returns no target exactly when no monster has actualLife > 0, and otherwise the first monster that does |
| Combat.CombatScreen.RemoveMonster | src/GUI/CombatScreen.java:451-460 | the list becomes the list without the first occurrence of the monster; absent, it is unchanged |
| Combat.CombatScreen.MonstersAttackAfterHeroAction | src/GUI/CombatScreen.java:430-448 | the hero's life becomes the phase's over the current list; the list and every monster's stats are unchanged |
| Combat.CombatScreen.OnBattle | src/GUI/CombatScreen.java:391-427 | list, roster, hero life and requests become those of the Battle turn of the old roster |
| Combat.CombatScreen.StrikeThenMonsters | src/GUI/CombatScreen.java:408-426 | with the target at k: the strike turn at k, then the monster phase on what is left |
| Combat.CombatScreen.HeroStrike | src/GUI/CombatScreen.java:408-423 | the target's life is set by the hero's hit; the target is removed exactly when the death check holds of it, and the combat ends if that emptied the list |
| Combat.CombatScreen.HeroCombat | src/GUI/CombatScreen.java:408 | only the target's actualLife changes, to the hero's hit; every other monster keeps its stats |
| Combat.CombatScreen.EndCombatAndReturnToMap | src/GUI/CombatScreen.java:463-473 | the end of the combat is requested and nothing else changes |
| Combat.CombatScreen.Perform | src/GUI/CombatScreen.java:261-278 | each button brings about the turn `Resolve` gives for its action |
| Combat.CombatScreen.OnKey | src/GUI/CombatScreen.java:295-356 | the highlight moves by `NextSelection`; a key that fires a button brings about that action's turn, any other key changes nothing else |
| Encounter.FirstLiving | src/GUI/CombatScreen.java:394-400 | absent exactly when every monster has actualLife <= 0; otherwise a living monster with only dead ones before it |
| Encounter.FirstLivingAt | src/GUI/CombatScreen.java:394-400 | a living monster with no living one before it is the one found |
| Encounter.Phase | src/GUI/CombatScreen.java:430-448 | the phase strikes at most the whole roster; it stops early only on a death, and a reported death is one the check holds of |
| Encounter.PhaseStep | src/GUI/CombatScreen.java:439-446 | one iteration: the monster at i strikes, and the phase either ends on the hero's death or goes on from i+1 |
| Encounter.PhaseStopsAtFirstDeath | src/GUI/CombatScreen.java:430-448 | the hero's life after the phase is that after the strikes of exactly its first `attacks` monsters in order; no earlier strike left the hero dead; a death is reported exactly when the last strike's did |
| Encounter.FirstFatalStrikeEndsPhase | src/GUI/CombatScreen.java:441-446 | an example: the first monster kills the hero and the second never strikes |
| Encounter.DeadMonstersStillStrike | src/GUI/CombatScreen.java:433-439 | an example: a monster with actualLife 0 is not skipped, and strikes like a living one |
| Encounter.BattleTurn | src/GUI/CombatScreen.java:391-427 | the target is `FirstLiving`; with none, the combat ends with no phase and nothing changed; with one, the monster phase runs (its other properties are the Battle lemmas below) |
| Encounter.StrikeAt | src/GUI/CombatScreen.java:408-418 | the strike prunes its target exactly when the death check holds of its new life, and the roster shrinks by one exactly then |
| Encounter.StrikeTurn | src/GUI/CombatScreen.java:408-426 | the target at k is struck, the phase runs on what is left from the hero's unchanged life, and the combat ends exactly when the strike pruned the last monster |
| Encounter.Resolve | src/GUI/CombatScreen.java:261-278 | only Battle strikes; Item, Defend and Escape keep the roster; no phase runs exactly on Escape or on a Battle with no living monster; Escape ends the combat with the hero's life unchanged |
| Encounter.BattleTargetsFirstLiving | src/GUI/CombatScreen.java:394-400 | Battle strikes a monster exactly when one is alive, and then the first living one |
| Encounter.BattleWithNoLivingMonster | src/GUI/CombatScreen.java:402-406 | with no living monster, Battle ends the combat with no strike, no phase and nothing changed |
| Encounter.BattlePrunesOnlyTheKilled | src/GUI/CombatScreen.java:417-418 | pruned exactly when the death check holds of the new life; pruning removes that entry only and keeps the order of the rest, and otherwise only its actualLife changes |
| Encounter.BattleVictory | src/GUI/CombatScreen.java:419-426 | the combat ends exactly when no monster lives or the last one was pruned; then no monster strikes and the hero's life is unchanged |
| Encounter.ItemAndDefendOnlyLetMonstersStrike | src/GUI/CombatScreen.java:265-274 | Item and Defend strike no monster and end nothing; the roster is kept and only the monster phase changes the hero's life |
| Encounter.EscapeChangesNothing | src/GUI/CombatScreen.java:275-278 | Escape ends the combat and changes nothing else |
| Text.LeadingBlanks | src/Runner/MainScreen.java:201 | the count of leading characters at most U+0020, the next one (if any) not being one |
| Text.TrailingBlanks | src/Runner/MainScreen.java:201 | the count of trailing characters at most U+0020, the one before them (if any) not being one |
| Text.Trim | src/Runner/MainScreen.java:201 | `trim` gives a string no longer than its input that is empty or starts and ends with a non-blank |
| Text.TrimIsSlice | src/Runner/MainScreen.java:201 | `trim` keeps a contiguous slice of its input that starts after the leading blanks |
| Text.TrimDropsOnlyBlanks | src/Runner/MainScreen.java:201 | everything `trim` drops, before and after that slice, is blank |
| Text.TrimEmptyIffBlank | src/Runner/MainScreen.java:201-203 | the trimmed name is empty exactly when every character typed is blank |
| Text.TrimIdempotent | src/Runner/MainScreen.java:201 | trimming twice is trimming once |
| Menu.JavaRem | src/Runner/MainScreen.java:56 | Java's `%`: for a non-negative dividend it is the Euclidean remainder; for a negative one it lies in (-b, 0] and differs from the dividend by a multiple of b, which fixes it |
| Menu.JavaRemOfNegative | src/Runner/MainScreen.java:56 | an example: `-5 % 4` is -1 |
| Menu.MenuUp | src/Runner/MainScreen.java:55-70 | UP and W move the cursor up one label, wrapping from the first to the last |
| Menu.MenuDown | src/Runner/MainScreen.java:60-74 | DOWN and S move the cursor down one label, wrapping from the last to the first |
| Menu.UpDownRoundTrip | src/Runner/MainScreen.java:55-63 | an UP then a DOWN, or a DOWN then an UP, puts the cursor back |
| Menu.Step | src/Runner/MainScreen.java:55-74 | from a label the cursor stays on a label; UP/W is undone by a DOWN, DOWN/S by an UP, and ENTER and other keys leave it |
| Menu.IndexStaysOnLabels | src/Runner/MainScreen.java:38-74 | from any label, under any sequence of keys, the cursor stays on a label |
| Menu.ClosesLater | src/Runner/MainScreen.java:206-213 | after a blank reply the dialog is still closed by a later reply |
| Menu.DialogResult | src/Runner/MainScreen.java:186-218 | the dialog's result is null or a non-empty, already trimmed name |
| Menu.DialogDecidedByFirstClose | src/Runner/MainScreen.java:195-215 | the result is decided by the first reply that is a cancel or a non-blank name: null for a cancel, that name trimmed otherwise |
| Menu.DialogCancelled | src/Runner/MainScreen.java:198-199 | the result is null exactly when the first closing reply is a cancel |
| Menu.ShowNewGameDialog | src/Runner/MainScreen.java:186-218 | the loop returns the dialog's result; every reply before the last one read was blank, and the last one closed the dialog |
| Menu.Activation | src/Runner/MainScreen.java:241-295 | a hero is created exactly for "Nueva Partida" with a non-null name, and with that name; a save is loaded exactly for "Continuar" with a save file; an exit is requested exactly for "Salir" |
| Menu.EveryLabelHandled | src/Runner/MainScreen.java:241-295 | every label of the menu has its own case: none falls to the default |
| Menu.MainMenu.constructor | src/Runner/MainScreen.java:38-39 | the cursor starts on "Continuar" |
| Menu.MainMenu.ActivateSelected | src/Runner/MainScreen.java:220-296 | the method's outcome is the dispatch on the selected label |
| Menu.MainMenu.OnKey | src/Runner/MainScreen.java:55-74 | the cursor moves by the wrapping step and stays on a label; only ENTER activates, and then the selected label |

## Left out

- The damage rules, `checkGameOver`, the item catalogue and the save-file I/O live in `Logic/Game.java`, which is not part of this model. The rules are the parameters of a `Rules` value. The weapon the monsters get is a `WeaponRef` argument. The save calls are the booleans of `Menu.Env`.
- The hero object is represented only by its current life. `game.heroCombat` changes only the target's `actualLife`, and `game.combat` only the hero's life. Any other change those calls make to the hero or the monster is not modelled.
- `heroDidDamage` only chooses the text of an alert, and `monsterDidDamage` is assigned but never read. Neither is modelled.
- Alerts, styling, images, animations, the game-over overlay and music are not modelled. Game over and the end of combat are entries of the ghost effect log.
- `Platform.runLater` callbacks are fire-and-forget. The end of the combat is logged when it is requested; removing the monster's view from the UI is not modelled.
- `java.util.Random`: the monster count and each sprite choice are parameters of the constructor, bounded as `nextInt` bounds them.
- Getters are plain field reads of the `Monster` class.
- Characters.Monster.SetLoot: the loot is a value (`seq<ItemRef>`), never null. The Java `setLoot` keeps the caller's `ArrayList` and `getLoot` hands out that live list, so a change through another reference shows in the monster. This aliasing and `setLoot(null)` are not modelled.
- Combat.CombatScreen.constructor: the game object is always present here, as the `Rules` value and the weapon. The Java constructor accepts a null `game`, but `createDebugMonster` then dereferences it (CombatScreen.java:179), so the constructor throws NullPointerException. Battle would throw too (:408, :439, :441). That failure is not modelled.
- The Java `NPC` constructor passes the sprite path to `loadFxImage` and keeps only the loaded image, not the path. Loading the image is I/O. The model keeps the path in a `sprite` field in the image's place.
- `NPC.setName`, `Classes` and `Gun` are plain beans with no rules.
- `initGame` only builds a new `Game`, which is not part of this model.
- Combat.MonsterPhase: reads the stats of each monster from the roster as it was when the phase began. `game.combat` is modelled as changing only the hero, so these stats are still current at each strike.
- Menu.ShowNewGameDialog: the number of warnings shown is a ghost out-parameter, and blank replies are assumed to be followed eventually by a closing one (`Closes`). A user who never closes the dialog makes the loop run forever.
- Menu.MainMenu.OnKey: ENTER's outcome is returned rather than shown. The dialog replies and save results are inputs (`Env`).
