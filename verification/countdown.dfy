/**
  The client's countdown controller: the one-second tick rule, the expiry
  choice of a cached sound, and the controller state that the buttons, the
  editor and the sound list update.
 */
module Countdown {
  import opened Wrappers
  import opened Seqs
  import opened Pick
  import opened TimeText

  /** Both the remaining and the initial duration start at 60 seconds. */
  const StartSeconds := 60

  /** A tick starting from prev expires when at most one second is left. */
  predicate Expires(prev: int) {
    prev <= 1
  }

  /** The value the tick's state updater returns for prev. */
  function NextTotal(prev: int, initial: int): (next: int)
    ensures 1 <= initial ==> 1 <= next
    ensures prev <= initial ==> next <= initial
    ensures next < prev <==> !Expires(prev) || initial < prev
  {
    if Expires(prev) then initial else prev - 1
  }

  /** What n ticks in a row leave behind: the remaining seconds and how many expiries fired. */
  datatype Run = Run(total: int, expiries: nat)

  function Ticks(prev: int, initial: int, n: nat): (r: Run)
    ensures r.expiries <= n
    ensures 1 <= prev <= initial ==> 1 <= r.total <= initial
    decreases n
  {
    if n == 0 then Run(prev, 0)
    else
      var r := Ticks(NextTotal(prev, initial), initial, n - 1);
      Run(r.total, r.expiries + if Expires(prev) then 1 else 0)
  }

  /** Fewer than prev ticks only count down, with no expiry. */
  lemma {:induction false} CountsDown(prev: int, initial: int, k: nat)
    requires 1 <= prev <= initial && k < prev
    ensures Ticks(prev, initial, k) == Run(prev - k, 0)
    decreases k
  {
    if k > 0 {
      CountsDown(prev - 1, initial, k - 1);
    }
  }

  /** Exactly prev ticks fire one expiry and leave the full duration again. */
  lemma {:induction false} ExpiresOnce(prev: int, initial: int)
    requires 1 <= prev <= initial
    ensures Ticks(prev, initial, prev) == Run(initial, 1)
    decreases prev
  {
    if prev == 1 {
      assert Ticks(initial, initial, 0) == Run(initial, 0);
    } else {
      ExpiresOnce(prev - 1, initial);
    }
  }

  /** Ticking a then b times is ticking a + b times. */
  lemma {:induction false} TicksCompose(prev: int, initial: int, a: nat, b: nat)
    ensures var r := Ticks(prev, initial, a);
      var s := Ticks(r.total, initial, b);
      Ticks(prev, initial, a + b) == Run(s.total, r.expiries + s.expiries)
    decreases a
  {
    if a > 0 {
      TicksCompose(NextTotal(prev, initial), initial, a - 1, b);
    }
  }

  /**
    The exact expiry rule: from a full countdown, q * initial + k ticks
    (k < initial) fire exactly q expiries and leave initial - k seconds.
   */
  lemma {:induction false} Periodic(initial: int, q: nat, k: nat)
    requires 1 <= initial && k < initial
    ensures Ticks(initial, initial, q * initial + k) == Run(initial - k, q)
    decreases q
  {
    if q == 0 {
      CountsDown(initial, initial, k);
    } else {
      var n: nat := initial;
      assert q * initial + k == n + ((q - 1) * initial + k);
      TicksCompose(initial, initial, n, (q - 1) * initial + k);
      ExpiresOnce(initial, initial);
      Periodic(initial, q - 1, k);
    }
  }

  /** `playRandomSound`'s choice: nothing on an empty list, else the entry at floor(r * length). */
  function ChooseSound(sounds: seq<string>, r: real): (pick: Option<string>)
    requires 0.0 <= r < 1.0
    ensures pick == None <==> sounds == []
    ensures pick.Some? ==> pick.value in sounds
  {
    if |sounds| == 0 then None else Some(sounds[PickIndex(|sounds|, r)])
  }

  class Controller {
    var totalSeconds: int
    var initialSeconds: int
    var isRunning: bool
    var isEditing: bool
    var sounds: seq<string>

    /** The remaining time is never below one second and never above the full duration. */
    ghost predicate Valid()
      reads this
    {
      1 <= totalSeconds <= initialSeconds
    }

    constructor ()
      ensures Valid()
      ensures totalSeconds == StartSeconds && initialSeconds == StartSeconds
      ensures !isRunning && !isEditing && sounds == []
    {
      totalSeconds := StartSeconds;
      initialSeconds := StartSeconds;
      isRunning := false;
      isEditing := false;
      sounds := [];
    }

    /**
      One interval tick while running: count down, or on expiry play one
      cached sound (drawn with r) and start the duration over.
     */
    method Tick(r: real) returns (expired: bool, played: Option<string>)
      requires Valid() && isRunning && 0.0 <= r < 1.0
      modifies this`totalSeconds
      ensures Valid()
      ensures expired == (old(totalSeconds) <= 1)
      ensures !expired ==> totalSeconds == old(totalSeconds) - 1 && played == None
      ensures expired ==> totalSeconds == initialSeconds && played == ChooseSound(sounds, r)
    {
      expired := Expires(totalSeconds);
      played := if expired then ChooseSound(sounds, r) else None;
      totalSeconds := NextTotal(totalSeconds, initialSeconds);
    }

    /** `toggleTimer`: start or pause, unless no time is left. */
    method ToggleTimer()
      requires Valid()
      modifies this`isRunning
      ensures Valid()
      ensures isRunning == if totalSeconds <= 0 then old(isRunning) else !old(isRunning)
      ensures isRunning != old(isRunning)
    {
      if totalSeconds <= 0 {
        return;
      }
      isRunning := !isRunning;
    }

    /** `reset`: stop and show the full duration again. */
    method Reset()
      requires Valid()
      modifies this`isRunning, this`totalSeconds
      ensures Valid()
      ensures !isRunning && totalSeconds == initialSeconds
    {
      isRunning := false;
      totalSeconds := initialSeconds;
    }

    /** A click on the time display opens the editor, but only while paused. */
    method BeginEdit()
      requires Valid()
      modifies this`isEditing
      ensures Valid()
      ensures isEditing == (old(isEditing) || !isRunning)
    {
      if !isRunning {
        isEditing := true;
      }
    }

    /**
      Leaving the editor (`handleEdit` then closing it): an accepted, positive
      total becomes both the remaining and the full duration; anything else
      is dropped silently.
     */
    method CommitEdit(value: string)
      requires Valid() && isEditing
      modifies this`totalSeconds, this`initialSeconds, this`isEditing
      ensures Valid() && !isEditing
      ensures match ParseTime(value)
        case Some(n) =>
          if n > 0 then totalSeconds == n && initialSeconds == n
          else totalSeconds == old(totalSeconds) && initialSeconds == old(initialSeconds)
        case None =>
          totalSeconds == old(totalSeconds) && initialSeconds == old(initialSeconds)
    {
      var parsed := ParseTime(value);
      if parsed.Some? && parsed.value > 0 {
        totalSeconds := parsed.value;
        initialSeconds := parsed.value;
      }
      isEditing := false;
    }

    /**
      Opening the editor and leaving it without typing commits the displayed
      text: the remaining time becomes the full duration.
     */
    method EditWithoutTyping()
      requires Valid() && !isRunning
      modifies this`isEditing, this`totalSeconds, this`initialSeconds
      ensures Valid() && !isEditing
      ensures totalSeconds == old(totalSeconds) && initialSeconds == old(totalSeconds)
    {
      BeginEdit();
      ParseFormatted(totalSeconds);
      CommitEdit(FormatTime(totalSeconds));
    }

    /** `refreshSounds` receiving the server's list: the cache becomes exactly that list. */
    method ReceiveSounds(fetched: seq<string>)
      requires Valid()
      modifies this`sounds
      ensures Valid()
      ensures sounds == fetched
    {
      sounds := fetched;
    }

    /**
      `deleteSound` after the server call: on success every entry equal to
      name leaves the cached list; on failure the list stays.
     */
    method DeleteSound(name: string, requestSucceeded: bool)
      requires Valid()
      modifies this`sounds
      ensures Valid()
      ensures sounds == if requestSucceeded then Without(old(sounds), name) else old(sounds)
      ensures requestSucceeded ==> name !in sounds && IsSubsequence(sounds, old(sounds))
      ensures requestSucceeded ==> multiset(sounds) == multiset(old(sounds))[name := 0]
    {
      if requestSucceeded {
        WithoutIsSubsequence(sounds, name);
        WithoutCounts(sounds, name);
        sounds := Without(sounds, name);
      }
    }
  }
}
