/**
 * The terminal's typing animation (script.js, `initTypingAnimation`). One
 * callback is pending at any time: the 1000 ms start timer, the 100 ms
 * interval that types the current command, or the 2000 ms pause before the
 * next one. Each firing is one step of Next; the class TypingAnimation does
 * the same updates in place. The commands are ASCII, so `charAt` and
 * `length` count characters.
 */
module Typing {

  /** Which callback is pending: the start timer, the typing interval, or the pause timer. */
  datatype Phase = Waiting | Ticking | Holding

  /** The closure's state: `commandIndex`, `charIndex` and the element's `textContent`. */
  datatype Animator = Animator(phase: Phase, commandIndex: nat, charIndex: nat, text: string)

  const Commands: seq<string> := [
    "kubectl get pods --all-namespaces",
    "docker ps -a",
    "terraform plan",
    "ansible-playbook deploy.yml",
    "prometheus --config.file=prometheus.yml",
    "helm install app ./chart"
  ]

  /** The state when the page has loaded: nothing typed, the start timer pending. */
  const Initial := Animator(Waiting, 0, 0, "")

  /**
   * The text shown is the typed prefix of the current command; while the
   * pause is pending the whole command has been typed.
   */
  ghost predicate Inv(commands: seq<string>, a: Animator)
  {
    0 < |commands| &&
    a.commandIndex < |commands| &&
    a.charIndex <= |commands[a.commandIndex]| &&
    a.text == commands[a.commandIndex][..a.charIndex] &&
    (a.phase == Holding ==> a.charIndex == |commands[a.commandIndex]|) &&
    (a.phase == Waiting ==> a.commandIndex == 0 && a.charIndex == 0)
  }

  /** `typeCommand()`: clears the text and starts typing command `index` from its first character. */
  function StartCommand(index: nat): (a: Animator)
  {
    Animator(Ticking, index, 0, "")
  }

  /** The pending callback fires. */
  function Next(commands: seq<string>, a: Animator): (r: Animator)
    requires 0 < |commands| && a.commandIndex < |commands|
    ensures r.commandIndex < |commands|
    ensures r.phase != Waiting
  {
    match a.phase
    case Waiting => StartCommand(a.commandIndex)
    case Ticking =>
      var command := commands[a.commandIndex];
      if a.charIndex < |command| then
        a.(charIndex := a.charIndex + 1, text := a.text + [command[a.charIndex]])
      else
        a.(phase := Holding)
    case Holding => StartCommand((a.commandIndex + 1) % |commands|)
  }

  /** Every step keeps the text a prefix of the current command. */
  lemma NextKeepsInv(commands: seq<string>, a: Animator)
    requires Inv(commands, a)
    ensures Inv(commands, Next(commands, a))
  {
    if a.phase == Ticking && a.charIndex < |commands[a.commandIndex]| {
      var command := commands[a.commandIndex];
      assert command[..a.charIndex + 1] == command[..a.charIndex] + [command[a.charIndex]];
    }
  }

  /** `n` callbacks in a row. */
  function Run(commands: seq<string>, a: Animator, n: nat): (r: Animator)
    requires 0 < |commands| && a.commandIndex < |commands|
    ensures r.commandIndex < |commands|
    ensures n > 0 ==> r.phase != Waiting
    decreases n
  {
    if n == 0 then a else Run(commands, Next(commands, a), n - 1)
  }

  lemma {:induction false} RunKeepsInv(commands: seq<string>, a: Animator, n: nat)
    requires Inv(commands, a)
    ensures Inv(commands, Run(commands, a, n))
    decreases n
  {
    if n > 0 {
      NextKeepsInv(commands, a);
      RunKeepsInv(commands, Next(commands, a), n - 1);
    }
  }

  /** Running `m` steps and then `n` more is running `m + n` steps. */
  lemma {:induction false} RunAdditive(commands: seq<string>, a: Animator, m: nat, n: nat)
    requires 0 < |commands| && a.commandIndex < |commands|
    ensures Run(commands, Run(commands, a, m), n) == Run(commands, a, m + n)
    decreases m
  {
    if m > 0 {
      RunAdditive(commands, Next(commands, a), m - 1, n);
    }
  }

  /** Each interval tick while typing shows one more character: after `k` ticks the first `k` are shown. */
  lemma {:induction false} TypesOneCharPerTick(commands: seq<string>, index: nat, k: nat)
    requires 0 < |commands| && index < |commands| && k <= |commands[index]|
    ensures Run(commands, StartCommand(index), k) == Animator(Ticking, index, k, commands[index][..k])
    decreases k
  {
    var command := commands[index];
    if k > 0 {
      TypesOneCharPerTick(commands, index, k - 1);
      var before := Animator(Ticking, index, k - 1, command[..k - 1]);
      RunAdditive(commands, StartCommand(index), k - 1, 1);
      assert Next(commands, before) == Animator(Ticking, index, k, command[..k]) by {
        assert command[..k] == command[..k - 1] + [command[k - 1]];
      }
      assert Run(commands, Next(commands, before), 0) == Next(commands, before);
    }
  }

  /**
   * A command of length `L` takes `L + 2` callbacks: `L` ticks that type it,
   * one tick that stops the interval, and the pause, after which the next
   * command (wrapping after the last) starts from an empty text.
   */
  lemma CommandRound(commands: seq<string>, index: nat)
    requires 0 < |commands| && index < |commands|
    ensures Run(commands, StartCommand(index), |commands[index]| + 2) == StartCommand((index + 1) % |commands|)
  {
    var len := |commands[index]|;
    TypesOneCharPerTick(commands, index, len);
    RunAdditive(commands, StartCommand(index), len, 2);
    var typed := Animator(Ticking, index, len, commands[index][..len]);
    var held := Next(commands, typed);
    assert held == Animator(Holding, index, len, commands[index][..len]);
    assert Run(commands, typed, 2) == Run(commands, held, 1);
    assert Run(commands, held, 1) == Run(commands, Next(commands, held), 0);
  }

  /** The number of callbacks that commands `0 .. j-1` take, one after the other. */
  function RoundsLength(commands: seq<string>, j: nat): nat
    requires j <= |commands|
  {
    if j == 0 then 0 else RoundsLength(commands, j - 1) + |commands[j - 1]| + 2
  }

  /** A remainder by a larger divisor is the dividend itself. */
  lemma SmallRemainder(x: nat, n: nat)
    requires x < n
    ensures x % n == x
  {
  }

  /** After the rounds of the first `j` commands, command `j` (or the first again) starts. */
  lemma {:induction false} RoundsFromFirst(commands: seq<string>, j: nat)
    requires 0 < |commands| && j <= |commands|
    ensures Run(commands, StartCommand(0), RoundsLength(commands, j)) == StartCommand(j % |commands|)
  {
    if j > 0 {
      var before := RoundsLength(commands, j - 1);
      var round := |commands[j - 1]| + 2;
      RoundsFromFirst(commands, j - 1);
      SmallRemainder(j - 1, |commands|);
      RunAdditive(commands, StartCommand(0), before, round);
      CommandRound(commands, j - 1);
      calc {
        Run(commands, StartCommand(0), RoundsLength(commands, j));
        Run(commands, StartCommand(0), before + round);
        Run(commands, Run(commands, StartCommand(0), before), round);
        Run(commands, StartCommand(j - 1), round);
        StartCommand(j % |commands|);
      }
    }
  }

  /** The animation is periodic: after one round of every command it starts the first one again. */
  lemma FullCycle(commands: seq<string>)
    requires 0 < |commands|
    ensures Run(commands, StartCommand(0), RoundsLength(commands, |commands|)) == StartCommand(0)
  {
    RoundsFromFirst(commands, |commands|);
  }

  /** From page load, the start timer and then the first command's ticks type its first `k` characters. */
  lemma PageLoadTypesFirstCommand(k: nat)
    requires k <= |Commands[0]|
    ensures Run(Commands, Initial, k + 1) == Animator(Ticking, 0, k, Commands[0][..k])
  {
    TypesOneCharPerTick(Commands, 0, k);
    assert Next(Commands, Initial) == StartCommand(0);
    assert Run(Commands, Initial, k + 1) == Run(Commands, StartCommand(0), k);
  }

  /** The six commands take 149 characters plus 12 end-of-command callbacks: a cycle of 161. */
  lemma SiteCycleLength()
    ensures RoundsLength(Commands, |Commands|) == 161
    ensures Run(Commands, StartCommand(0), 161) == StartCommand(0)
  {
    assert |Commands[0]| == 33 && |Commands[1]| == 12 && |Commands[2]| == 14;
    assert |Commands[3]| == 27 && |Commands[4]| == 39 && |Commands[5]| == 24;
    assert RoundsLength(Commands, 6) == 161 by {
      assert RoundsLength(Commands, 1) == 35;
      assert RoundsLength(Commands, 2) == 49;
      assert RoundsLength(Commands, 3) == 65;
      assert RoundsLength(Commands, 4) == 94;
      assert RoundsLength(Commands, 5) == 135;
    }
    FullCycle(Commands);
  }

  /** The animation as the closure's variables and the element's text, updated in place. */
  class TypingAnimation {
    var phase: Phase
    var commandIndex: nat
    var charIndex: nat
    var text: string

    function State(): Animator
      reads this
    {
      Animator(phase, commandIndex, charIndex, text)
    }

    ghost predicate Valid()
      reads this
    {
      Inv(Commands, State())
    }

    constructor ()
      ensures Valid() && State() == Initial
    {
      phase := Waiting;
      commandIndex := 0;
      charIndex := 0;
      text := "";
    }

    /** `typeCommand`: the element is cleared and the interval starts at the first character. */
    method TypeCommand()
      requires commandIndex < |Commands|
      modifies this
      ensures State() == StartCommand(old(commandIndex))
    {
      charIndex := 0;
      text := "";
      phase := Ticking;
    }

    /** The 1000 ms start timer. */
    method StartTimerFired()
      requires Valid() && phase == Waiting
      modifies this
      ensures Valid() && State() == Next(Commands, old(State()))
    {
      TypeCommand();
    }

    /** The 100 ms interval: one more character, or, at the end, stop and schedule the pause. */
    method Tick()
      requires Valid() && phase == Ticking
      modifies this
      ensures Valid() && State() == Next(Commands, old(State()))
    {
      NextKeepsInv(Commands, State());
      var currentCommand := Commands[commandIndex];
      if charIndex < |currentCommand| {
        text := text + [currentCommand[charIndex]];
        charIndex := charIndex + 1;
      } else {
        phase := Holding;
      }
    }

    /** The 2000 ms pause: the next command, wrapping after the last. */
    method PauseFired()
      requires Valid() && phase == Holding
      modifies this
      ensures Valid() && State() == Next(Commands, old(State()))
    {
      NextKeepsInv(Commands, State());
      commandIndex := (commandIndex + 1) % |Commands|;
      TypeCommand();
    }
  }
}
