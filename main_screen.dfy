/**
 * The title menu: a cursor over four labels that wraps under up and down,
 * the dialog that asks for the new player's name, and the dispatch on the
 * selected label.
 */
module Menu {
  import opened Wrappers
  import opened Text

  const Labels: seq<string> := ["Continuar", "Nueva Partida", "Configuración", "Salir"]

  /** Java's `%` on `int`: truncates toward zero, so the remainder takes the sign of `a`. */
  function JavaRem(a: int, b: int): (r: int)
    requires b > 0
    ensures a >= 0 ==> 0 <= r < b && r == a % b
    ensures a < 0 ==> -b < r <= 0 && (a - r) % b == 0
  {
    if a >= 0 then a % b
    else
      NegativeRem(a, b);
      -((-a) % b)
  }

  /** Negating the remainder of `-a` leaves `a` short of a multiple of `b`. */
  lemma NegativeRem(a: int, b: int)
    requires b > 0 && a < 0
    ensures (a + (-a) % b) % b == 0
  {
    var n := -a;
    var q, r := n / b, n % b;
    assert n == q * b + r;
    var m := -q;
    assert a + r == m * b;
    MultipleRem(m, b);
  }

  /** A multiple of `b` leaves no remainder. */
  lemma MultipleRem(q: int, b: int)
    requires b > 0
    ensures (q * b) % b == 0
  {
    var r := (q * b) % b;
    var d := (q * b) / b;
    assert q * b == d * b + r && 0 <= r < b;
    assert (q - d) * b == r;
    MulBounds(q - d, b);
  }

  /** A non-zero multiple of `b` is at least `b` away from zero. */
  lemma MulBounds(c: int, b: int)
    requires b > 0
    ensures c >= 1 ==> c * b >= b
    ensures c <= -1 ==> c * b <= -b
  {
  }

  /** Java's `-5 % 4` is -1, not the Euclidean 3. */
  lemma JavaRemOfNegative()
    ensures JavaRem(-5, 4) == -1
  {
  }

  /** UP and W: `(selectedIndex - 1 + labels.length) % labels.length`. */
  function MenuUp(i: int): (r: int)
    ensures 0 <= i < |Labels| ==> 0 <= r < |Labels| && r == (if i == 0 then |Labels| - 1 else i - 1)
  {
    JavaRem(i - 1 + |Labels|, |Labels|)
  }

  /** DOWN and S: `(selectedIndex + 1) % labels.length`. */
  function MenuDown(i: int): (r: int)
    ensures 0 <= i < |Labels| ==> 0 <= r < |Labels| && r == (if i == |Labels| - 1 then 0 else i + 1)
  {
    JavaRem(i + 1, |Labels|)
  }

  /** An up then a down, or a down then an up, puts the cursor back where it was. */
  lemma UpDownRoundTrip(i: int)
    requires 0 <= i < |Labels|
    ensures MenuDown(MenuUp(i)) == i
    ensures MenuUp(MenuDown(i)) == i
  {
  }

  /** The keys the title menu listens to; every other key is `Other`. */
  datatype MenuKey = Up | W | Down | S | Enter | Other

  /** The cursor after one key: up, down, or where it was. */
  function Step(i: int, k: MenuKey): (r: int)
    ensures 0 <= i < |Labels| ==> 0 <= r < |Labels|
    ensures k in {Up, W} ==> MenuDown(r) == i || !(0 <= i < |Labels|)
    ensures k in {Down, S} ==> MenuUp(r) == i || !(0 <= i < |Labels|)
    ensures k in {Enter, Other} ==> r == i
  {
    match k
    case Up | W => MenuUp(i)
    case Down | S => MenuDown(i)
    case _ => i
  }

  /** The cursor after a sequence of keys, from `i`. */
  function IndexAfter(keys: seq<MenuKey>, i: int): int
    decreases |keys|
  {
    if |keys| == 0 then i else IndexAfter(keys[1..], Step(i, keys[0]))
  }

  /** Whatever keys are pressed, a cursor that starts on a label stays on one. */
  lemma {:induction false} IndexStaysOnLabels(keys: seq<MenuKey>, i: int)
    requires 0 <= i < |Labels|
    ensures 0 <= IndexAfter(keys, i) < |Labels|
  {
    if |keys| > 0 {
      IndexStaysOnLabels(keys[1..], Step(i, keys[0]));
    }
  }

  /** A reply of the name dialog: None is a cancelled dialog, Some the text typed. */
  type Reply = Option<string>

  /** A reply that closes the dialog: a cancel, or a name that is not blank once trimmed. */
  predicate Ends(reply: Reply) {
    reply.None? || Trim(reply.value) != []
  }

  /** The user closes the dialog at some point. */
  predicate Closes(replies: seq<Reply>) {
    exists j :: 0 <= j < |replies| && Ends(replies[j])
  }

  lemma ClosesLater(replies: seq<Reply>)
    requires Closes(replies) && |replies| > 0 && !Ends(replies[0])
    ensures Closes(replies[1..])
  {
    var j :| 0 <= j < |replies| && Ends(replies[j]);
    assert Ends(replies[1..][j - 1]);
  }

  /**
   * What the name dialog returns for the replies the user gives in turn:
   * None on a cancel, the trimmed name on the first non-blank one; a blank
   * reply brings the prompt back.
   */
  function DialogResult(replies: seq<Reply>): (r: Option<string>)
    requires Closes(replies)
    ensures r.Some? ==> r.value != [] && Trim(r.value) == r.value
    decreases |replies|
  {
    if replies[0].None? then None
    else if Trim(replies[0].value) != [] then (TrimIdempotent(replies[0].value); Some(Trim(replies[0].value)))
    else (ClosesLater(replies); DialogResult(replies[1..]))
  }

  /**
   * The dialog's result is decided by the first reply that closes it: every
   * earlier reply was a name that trims to the empty string.
   */
  lemma {:induction false} DialogDecidedByFirstClose(replies: seq<Reply>, j: nat)
    requires j < |replies| && Ends(replies[j])
    requires forall i :: 0 <= i < j ==> !Ends(replies[i])
    ensures Closes(replies)
    ensures DialogResult(replies) == if replies[j].None? then None else Some(Trim(replies[j].value))
  {
    if j > 0 {
      var tail := replies[1..];
      forall i | 0 <= i < j - 1
        ensures !Ends(tail[i])
      {
        assert tail[i] == replies[i + 1];
      }
      assert tail[j - 1] == replies[j];
      DialogDecidedByFirstClose(tail, j - 1);
      assert !Ends(replies[0]);
    }
  }

  /** The dialog returns None exactly when the user cancels before typing a non-blank name. */
  lemma DialogCancelled(replies: seq<Reply>, j: nat)
    requires j < |replies| && Ends(replies[j])
    requires forall i :: 0 <= i < j ==> !Ends(replies[i])
    ensures DialogResult(replies).None? <==> replies[j].None?
  {
    DialogDecidedByFirstClose(replies, j);
  }

  /**
   * `showNewGameDialog`: shows the dialog until it is cancelled or given a
   * name that is not blank; a blank one raises a warning and clears the field.
   * `warnings` counts the warnings shown.
   */
  method ShowNewGameDialog(replies: seq<Reply>) returns (resultName: Option<string>, ghost warnings: nat)
    requires Closes(replies)
    ensures resultName == DialogResult(replies)
    ensures warnings < |replies| && forall i :: 0 <= i < warnings ==> !Ends(replies[i])
    ensures Ends(replies[warnings])
  {
    resultName := None;
    var finished := false;
    var i := 0;
    while !finished
      invariant 0 <= i <= |replies|
      invariant !finished ==> forall j :: 0 <= j < i ==> !Ends(replies[j])
      invariant finished ==> forall j :: 0 <= j < i - 1 ==> !Ends(replies[j])
      invariant !finished ==> resultName.None? && Closes(replies[i..]) && DialogResult(replies[i..]) == DialogResult(replies)
      invariant finished ==> 0 < i && Ends(replies[i - 1]) && resultName == DialogResult(replies)
      decreases if finished then 0 else |replies| - i + 1
    {
      ghost var j :| 0 <= j < |replies[i..]| && Ends(replies[i..][j]);
      var opt := replies[i];
      assert replies[i..][0] == opt;
      if opt.None? {
        finished := true;
      } else {
        var name := Trim(opt.value);
        if name != [] {
          resultName := Some(name);
          finished := true;
        } else {
          ClosesLater(replies[i..]);
          assert replies[i..][1..] == replies[i + 1..];
        }
      }
      i := i + 1;
      if !finished {
        assert !Ends(replies[i - 1]);
      }
    }
    warnings := i - 1;
  }

  /** What the game reports to the menu: whether a save file exists, and the results of the save calls. */
  datatype Env = Env(saveExists: bool, readOk: bool, replies: seq<Reply>, createOk: bool)

  /** What selecting a label brings about. */
  datatype Outcome =
    | Continued(loaded: bool)           // a save file was found and read, well or not
    | NoSaveFile                        // "Continuar" without a save file: nothing happens
    | HeroCreated(name: string, saved: bool)
    | NewGameCancelled
    | SettingsShown
    | ExitRequested                     // Platform.exit, deferred
    | Ignored                           // a label none of the cases names

  /** The dispatch of `activateSelected` on the selected label. */
  function Activation(sel: string, env: Env): (r: Outcome)
    requires sel == "Nueva Partida" ==> Closes(env.replies)
    ensures r.HeroCreated? <==> sel == "Nueva Partida" && DialogResult(env.replies).Some?
    ensures r.HeroCreated? ==> r.name == DialogResult(env.replies).value && r.name != [] && r.saved == env.createOk
    ensures r.Continued? <==> sel == "Continuar" && env.saveExists
    ensures r.Continued? ==> r.loaded == env.readOk
    ensures r == ExitRequested <==> sel == "Salir"
  {
    if sel == "Continuar" then
      if env.saveExists then Continued(env.readOk) else NoSaveFile
    else if sel == "Nueva Partida" then
      match DialogResult(env.replies)
      case Some(name) => HeroCreated(name, env.createOk)
      case None => NewGameCancelled
    else if sel == "Configuración" then SettingsShown
    else if sel == "Salir" then ExitRequested
    else Ignored
  }

  /** Every label of the menu leads somewhere: none falls to the default case. */
  lemma EveryLabelHandled(i: int, env: Env)
    requires 0 <= i < |Labels|
    requires Labels[i] == "Nueva Partida" ==> Closes(env.replies)
    ensures Activation(Labels[i], env) != Ignored
  {
  }

  class MainMenu {
    var selectedIndex: int

    /** The menu opens with its cursor on "Continuar". */
    constructor ()
      ensures selectedIndex == 0 && Labels[selectedIndex] == "Continuar"
    {
      selectedIndex := 0;
    }

    ghost predicate Valid()
      reads this`selectedIndex
    {
      0 <= selectedIndex < |Labels|
    }

    /** `activateSelected`: the dialog runs only for "Nueva Partida". */
    method ActivateSelected(env: Env) returns (outcome: Outcome)
      requires Valid()
      requires Labels[selectedIndex] == "Nueva Partida" ==> Closes(env.replies)
      ensures outcome == Activation(Labels[selectedIndex], env)
    {
      var sel := Labels[selectedIndex];
      if sel == "Continuar" {
        outcome := if env.saveExists then Continued(env.readOk) else NoSaveFile;
      } else if sel == "Nueva Partida" {
        var name, _ := ShowNewGameDialog(env.replies);
        outcome := if name.Some? then HeroCreated(name.value, env.createOk) else NewGameCancelled;
      } else if sel == "Configuración" {
        outcome := SettingsShown;
      } else if sel == "Salir" {
        outcome := ExitRequested;
      } else {
        outcome := Ignored;
      }
    }

    /** The key handlers of `initInput`. */
    method OnKey(k: MenuKey, env: Env) returns (outcome: Option<Outcome>)
      requires Valid()
      requires k == Enter && Labels[selectedIndex] == "Nueva Partida" ==> Closes(env.replies)
      modifies this`selectedIndex
      ensures Valid()
      ensures selectedIndex == Step(old(selectedIndex), k)
      ensures outcome.Some? <==> k == Enter
      ensures outcome.Some? ==> outcome.value == Activation(Labels[selectedIndex], env)
    {
      match k
      case Up | W =>
        selectedIndex := MenuUp(selectedIndex);
        outcome := None;
      case Down | S =>
        selectedIndex := MenuDown(selectedIndex);
        outcome := None;
      case Enter =>
        var o := ActivateSelected(env);
        outcome := Some(o);
      case Other =>
        outcome := None;
    }
  }
}
