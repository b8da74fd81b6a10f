// Which of two versions is behind, and a checker for the newest release with
// one request in flight at most (apps/web/lib/update-check.ts).
module UpdateCheck {
  import opened Text

  // ---- versions ----

  datatype Version = Version(major: nat, minor: nat, patch: nat)

  function DigitCount(s: string): (n: nat)
    ensures n <= |s| && forall i | 0 <= i < n :: IsDigit(s[i])
    ensures n < |s| ==> !IsDigit(s[n])
  {
    if s != "" && IsDigit(s[0]) then 1 + DigitCount(s[1..]) else 0
  }

  predicate EndsLine(c: char) { c == '\n' || c == '\r' || c == '\U{2028}' || c == '\U{2029}' }

  // Nothing, or a hyphen or a plus and the rest of one line.
  predicate IsSuffix(s: string) {
    s == "" || ((s[0] == '-' || s[0] == '+') && forall i | 1 <= i < |s| :: !EndsLine(s[i]))
  }

  // A number and the dot behind it: the number, and what follows the dot.
  function DottedNumber(s: string): (r: Option<(nat, string)>)
    ensures r.Some? ==> |r.value.1| < |s|
  {
    var n := DigitCount(s);
    if n == 0 || n == |s| || s[n] != '.' then None
    else
      assert forall i | 0 <= i < n :: s[..n][i] == s[i];
      Some((Numeral(s[..n]), s[n + 1..]))
  }

  // The text without the v in front.
  function WithoutV(s: string): string { if s != "" && s[0] == 'v' then s[1..] else s }

  // Three numbers with dots between them. A suffix is dropped.
  function ParseNumbers(s: string): Option<Version> {
    var major := DottedNumber(s);
    if major.None? then None
    else
      var minor := DottedNumber(major.value.1);
      if minor.None? then None
      else
        var patch := LastNumber(minor.value.1);
        if patch.None? then None else Some(Version(major.value.0, minor.value.0, patch.value))
  }

  // A number with nothing but a suffix behind it.
  function LastNumber(s: string): Option<nat> {
    var n := DigitCount(s);
    if n == 0 || !IsSuffix(s[n..]) then None
    else
      assert forall i | 0 <= i < n :: s[..n][i] == s[i];
      Some(Numeral(s[..n]))
  }

  function ParseVersion(text: string): Option<Version> { ParseNumbers(WithoutV(Trim(text))) }

  function Part(v: Version, i: nat): nat
    requires i < 3
  {
    if i == 0 then v.major else if i == 1 then v.minor else v.patch
  }

  // The comparison loop: the first part that differs decides.
  method Compare(a: Version, b: Version) returns (older: bool)
    ensures older <==> Older(a, b)
  {
    var index := 0;
    while index < 3
      invariant 0 <= index <= 3
      invariant index > 0 ==> a.major == b.major
      invariant index > 1 ==> a.minor == b.minor
      invariant index > 2 ==> a.patch == b.patch
    {
      var left, right := Part(a, index), Part(b, index);
      if left != right {
        return left < right;
      }
      index := index + 1;
    }
    return false;
  }

  // A text that does not parse is never behind, and nothing is behind it.
  method Behind(running: string, latest: string) returns (behind: bool)
    ensures behind <==> IsBehind(running, latest)
  {
    var a, b := ParseVersion(running), ParseVersion(latest);
    if a.None? || b.None? {
      return false;
    }
    behind := Compare(a.value, b.value);
  }

  predicate Older(a: Version, b: Version) {
    || a.major < b.major
    || (a.major == b.major && a.minor < b.minor)
    || (a.major == b.major && a.minor == b.minor && a.patch < b.patch)
  }

  predicate Trails(a: Option<Version>, b: Option<Version>) { a.Some? && b.Some? && Older(a.value, b.value) }

  predicate IsBehind(running: string, latest: string) { Trails(ParseVersion(running), ParseVersion(latest)) }

  lemma TrailsIsStrictOrder(a: Option<Version>, b: Option<Version>, c: Option<Version>)
    ensures !Trails(a, a)
    ensures Trails(a, b) && Trails(b, c) ==> Trails(a, c)
    ensures a.Some? && b.Some? ==> (!Trails(a, b) && !Trails(b, a) <==> a == b)
  {
  }

  // Being behind is a strict order on what the texts parse to, total on the
  // texts that parse.
  lemma BehindIsStrictOrder(a: string, b: string, c: string)
    ensures !IsBehind(a, a)
    ensures IsBehind(a, b) && IsBehind(b, c) ==> IsBehind(a, c)
    ensures ParseVersion(a).Some? && ParseVersion(b).Some? ==>
      (!IsBehind(a, b) && !IsBehind(b, a) <==> ParseVersion(a) == ParseVersion(b))
  {
    TrailsIsStrictOrder(ParseVersion(a), ParseVersion(b), ParseVersion(c));
  }

  lemma {:induction false} DigitCountOf(digits: string, rest: string)
    requires forall i | 0 <= i < |digits| :: IsDigit(digits[i])
    requires rest == "" || !IsDigit(rest[0])
    ensures DigitCount(digits + rest) == |digits|
  {
    if digits == "" {
      assert digits + rest == rest;
    } else {
      assert (digits + rest)[1..] == digits[1..] + rest;
      DigitCountOf(digits[1..], rest);
    }
  }

  lemma DottedNumberOf(n: nat, rest: string)
    ensures DottedNumber(Decimal(n) + "." + rest) == Some((n, rest))
  {
    var s := Decimal(n) + "." + rest;
    assert s == Decimal(n) + ("." + rest);
    DigitCountOf(Decimal(n), "." + rest);
    assert s[..|Decimal(n)|] == Decimal(n) && s[|Decimal(n)| + 1..] == rest;
    NumeralOfDecimal(n);
  }

  lemma LastNumberOf(n: nat, suffix: string)
    requires IsSuffix(suffix)
    ensures LastNumber(Decimal(n) + suffix) == Some(n)
  {
    var s := Decimal(n) + suffix;
    DigitCountOf(Decimal(n), suffix);
    assert s[..|Decimal(n)|] == Decimal(n) && s[|Decimal(n)|..] == suffix;
    NumeralOfDecimal(n);
  }

  function Printed(v: Version, suffix: string): string {
    Decimal(v.major) + "." + (Decimal(v.minor) + "." + (Decimal(v.patch) + suffix))
  }

  lemma NumbersParse(v: Version, suffix: string)
    requires IsSuffix(suffix)
    ensures ParseNumbers(Printed(v, suffix)) == Some(v)
  {
    DottedNumberOf(v.major, Decimal(v.minor) + "." + (Decimal(v.patch) + suffix));
    DottedNumberOf(v.minor, Decimal(v.patch) + suffix);
    LastNumberOf(v.patch, suffix);
  }

  lemma PrintedEnds(v: Version, suffix: string)
    ensures Printed(v, suffix) != "" && IsDigit(Printed(v, suffix)[0])
    ensures
      var s := Printed(v, suffix);
      s[|s| - 1] == if suffix == "" then Decimal(v.patch)[|Decimal(v.patch)| - 1] else suffix[|suffix| - 1]
  {
    var tail := Decimal(v.patch) + suffix;
    assert Printed(v, suffix)[0] == Decimal(v.major)[0];
    assert tail[|tail| - 1] == if suffix == "" then Decimal(v.patch)[|Decimal(v.patch)| - 1] else suffix[|suffix| - 1];
  }

  // A printed version, with or without its v, a suffix and whitespace around
  // it, parses back to its three numbers.
  lemma PrintedParses(v: Version, left: string, withV: bool, suffix: string, right: string)
    requires AllSpace(left) && AllSpace(right)
    requires IsSuffix(suffix) && (suffix == "" || !IsSpace(suffix[|suffix| - 1]))
    ensures ParseVersion(left + (if withV then "v" + Printed(v, suffix) else Printed(v, suffix)) + right) == Some(v)
  {
    var body := Printed(v, suffix);
    NumbersParse(v, suffix);
    PrintedIsTrimmed(v, suffix, body);
    if withV {
      WithV(body);
      PaddedParses(left, "v" + body, right, body, v);
    } else {
      PaddedParses(left, body, right, body, v);
    }
  }

  lemma PrintedIsTrimmed(v: Version, suffix: string, body: string)
    requires body == Printed(v, suffix) && (suffix == "" || !IsSpace(suffix[|suffix| - 1]))
    ensures body != "" && !IsSpace(body[0]) && !IsSpace(body[|body| - 1]) && WithoutV(body) == body
  {
    PrintedEnds(v, suffix);
  }

  lemma WithV(body: string)
    requires body != "" && !IsSpace(body[|body| - 1])
    ensures var s := "v" + body;
            s != "" && !IsSpace(s[0]) && !IsSpace(s[|s| - 1]) && WithoutV(s) == body
  {
    assert ("v" + body)[1..] == body;
  }

  lemma PaddedParses(left: string, s: string, right: string, body: string, v: Version)
    requires AllSpace(left) && AllSpace(right)
    requires s != "" && !IsSpace(s[0]) && !IsSpace(s[|s| - 1])
    requires WithoutV(s) == body && ParseNumbers(body) == Some(v)
    ensures ParseVersion(left + s + right) == Some(v)
  {
    TrimPadded(left, s, right);
  }

  // ---- the checker ----

  const SUCCESS_LASTS_MS: int := 86_400_000
  const FAILURE_LASTS_MS: int := 3_600_000

  datatype Release = Release(version: string, url: string)

  // What the checker remembers.
  datatype Memory = Memory(release: Option<Release>, validUntil: int, inFlight: bool)

  predicate Starts(m: Memory, now: int) { now >= m.validUntil && !m.inFlight }

  function Asked(m: Memory, now: int): Memory { if Starts(m, now) then m.(inFlight := true) else m }

  // The fetch answered: a usable release, or nothing the checker keeps.
  function Answered(m: Memory, found: Option<Release>, now: int): Memory {
    if found.Some? then m.(release := found, validUntil := now + SUCCESS_LASTS_MS)
    else m.(validUntil := now + FAILURE_LASTS_MS)
  }

  class Checker {
    var release: Option<Release>
    var validUntil: int
    var inFlight: bool

    constructor ()
      ensures Now() == Memory(None, 0, false)
    {
      release, validUntil, inFlight := None, 0, false;
    }

    ghost function Now(): Memory
      reads this
    {
      Memory(release, validUntil, inFlight)
    }

    // The newest release known. It may start a fetch, and never waits for one.
    method Latest(now: int) returns (known: Option<Release>, started: bool)
      modifies this`inFlight
      ensures Now() == Asked(old(Now()), now)
      ensures known == old(release) && (started <==> Starts(old(Now()), now))
    {
      started := false;
      if now >= validUntil && !inFlight {
        inFlight := true;
        started := true;
      }
      known := release;
    }

    method OnAnswer(found: Option<Release>, now: int)
      modifies this`release, this`validUntil
      ensures Now() == Answered(old(Now()), found, now)
    {
      if found.Some? {
        release := found;
        validUntil := now + SUCCESS_LASTS_MS;
      } else {
        validUntil := now + FAILURE_LASTS_MS;
      }
    }

    method OnSettled()
      modifies this`inFlight
      ensures Now() == old(Now()).(inFlight := false)
    {
      inFlight := false;
    }
  }

  // ---- interleavings ----

  // How far the fetch has come, the last answer's time, when each fetch
  // started, and whether each one answered had found a release.
  datatype Fetch = Nothing | Waiting | Done

  datatype State = State(memory: Memory, fetch: Fetch, answeredAt: Option<int>, started: seq<int>, found: seq<bool>)

  const FRESH := State(Memory(None, 0, false), Nothing, None, [], [])

  datatype Step = Ask(now: int) | Answer(found: Option<Release>, now: int) | Settle

  predicate Enabled(s: State, step: Step) {
    match step
    case Ask(_) => true
    case Answer(_, _) => s.fetch == Waiting
    case Settle => s.fetch == Done
  }

  function Next(s: State, step: Step): State {
    match step
    case Ask(now) =>
      if Starts(s.memory, now)
      then s.(memory := Asked(s.memory, now), fetch := Waiting, started := s.started + [now])
      else s
    case Answer(found, now) =>
      s.(memory := Answered(s.memory, found, now), fetch := Done, answeredAt := Some(now),
          found := s.found + [found.Some?])
    case Settle => s.(memory := s.memory.(inFlight := false), fetch := Nothing)
  }

  ghost predicate Reaches(from: State, steps: seq<Step>, to: State)
    decreases steps
  {
    if steps == [] then from == to
    else Enabled(from, steps[0]) && Reaches(Next(from, steps[0]), steps[1..], to)
  }

  predicate FoundLast(s: State) { s.found != [] && s.found[|s.found| - 1] }

  function Pause(success: bool): int { if success then SUCCESS_LASTS_MS else FAILURE_LASTS_MS }

  // The flag is up exactly while a fetch is under way, and the answer is valid
  // for a day after a success and an hour after a failure.
  ghost predicate Inv(s: State) {
    && (s.memory.inFlight <==> s.fetch != Nothing)
    && (s.answeredAt.Some? ==> s.memory.validUntil == s.answeredAt.value + Pause(FoundLast(s)))
    && (FoundLast(s) ==> s.memory.release.Some?)
    && (s.fetch == Done ==> s.answeredAt.Some?)
    && (s.answeredAt.None? ==> |s.started| <= 1 && (s.started == [] <==> s.fetch == Nothing))
  }

  lemma {:induction false} RunKeeps(from: State, steps: seq<Step>, to: State)
    requires Inv(from) && Reaches(from, steps, to)
    ensures Inv(to)
    ensures from.memory.release.Some? ==> to.memory.release.Some?
    ensures |from.started| <= |to.started|
    decreases steps
  {
    if steps != [] {
      RunKeeps(Next(from, steps[0]), steps[1..], to);
    }
  }

  // In every interleaving: a fetch only starts when none is under way, and a
  // day after the last success or an hour after the last failure.
  lemma FetchesAreSpaced(steps: seq<Step>, s: State, now: int)
    requires Reaches(FRESH, steps, s) && Starts(s.memory, now)
    ensures s.fetch == Nothing
    ensures s.answeredAt.Some? ==> now >= s.answeredAt.value + Pause(FoundLast(s))
    ensures s.answeredAt.None? ==> s.started == []
  {
    RunKeeps(FRESH, steps, s);
  }

  // A release once known stays known, whatever fails after it.
  lemma KnownStaysKnown(steps: seq<Step>, s: State, more: seq<Step>, t: State)
    requires Reaches(FRESH, steps, s) && Reaches(s, more, t) && s.memory.release.Some?
    ensures t.memory.release.Some?
  {
    RunKeeps(FRESH, steps, s);
    RunKeeps(s, more, t);
  }

  // The clock does not run back.
  ghost predicate Clocked(from: int, steps: seq<Step>)
    decreases steps
  {
    steps != [] ==>
      match steps[0]
      case Ask(now) => from <= now && Clocked(now, steps[1..])
      case Answer(_, now) => from <= now && Clocked(now, steps[1..])
      case Settle => Clocked(from, steps[1..])
  }

  // A fetch starts no sooner after another than its outcome allows: an hour,
  // and a day when it had found a release.
  ghost predicate WellApart(started: seq<int>, found: seq<bool>) {
    forall i, j | 0 <= i < j < |started| :: i < |found| && started[j] - started[i] >= Pause(found[i])
  }

  // Every start so far lies before the clock, and before the answer it led to.
  ghost predicate TimedInv(s: State, clock: int) {
    && Inv(s) && WellApart(s.started, s.found)
    && |s.started| == |s.found| + (if s.fetch == Waiting then 1 else 0) && (s.answeredAt.None? <==> s.found == [])
    && (forall t | t in s.started :: t <= clock)
    && (s.answeredAt.Some? ==> s.answeredAt.value <= clock)
    && (s.answeredAt.Some? && s.fetch != Waiting ==> forall t | t in s.started :: t <= s.answeredAt.value)
  }

  lemma AskKeepsTimes(s: State, clock: int, now: int)
    requires TimedInv(s, clock) && clock <= now
    ensures TimedInv(Next(s, Ask(now)), now)
  {
    if Starts(s.memory, now) {
      var last := |s.started| - 1;
      var started := s.started + [now];
      forall i, j | 0 <= i < j < |started| ensures i < |s.found| && started[j] - started[i] >= Pause(s.found[i]) {
        if j == last + 1 {
          assert s.started[last] in s.started;
          if i < last {
            assert started[last] - started[i] >= Pause(s.found[i]);
          }
        }
      }
    }
  }

  lemma AnswerKeepsTimes(s: State, clock: int, found: Option<Release>, now: int)
    requires TimedInv(s, clock) && clock <= now && s.fetch == Waiting
    ensures TimedInv(Next(s, Answer(found, now)), now)
  {
    var all := s.found + [found.Some?];
    forall i, j | 0 <= i < j < |s.started| ensures i < |all| && s.started[j] - s.started[i] >= Pause(all[i]) {
      assert i < |s.found|;
    }
  }

  lemma {:induction false} StartsAreWellApart(s: State, clock: int, steps: seq<Step>, t: State)
    requires TimedInv(s, clock) && Reaches(s, steps, t) && Clocked(clock, steps)
    ensures WellApart(t.started, t.found)
    decreases steps
  {
    if steps != [] {
      var next := Next(s, steps[0]);
      match steps[0]
      case Ask(now) =>
        AskKeepsTimes(s, clock, now);
        StartsAreWellApart(next, now, steps[1..], t);
      case Answer(found, now) =>
        AnswerKeepsTimes(s, clock, found, now);
        StartsAreWellApart(next, now, steps[1..], t);
      case Settle =>
        StartsAreWellApart(next, clock, steps[1..], t);
    }
  }

  // From the first call on, whatever is asked and answered in between, under a
  // clock that does not run back: any two fetches start at least an hour apart,
  // and a day when the first of them found a release.
  lemma FetchStartsAreWellApart(steps: seq<Step>, t: State)
    requires Reaches(FRESH, steps, t) && Clocked(0, steps)
    ensures WellApart(t.started, t.found)
  {
    StartsAreWellApart(FRESH, 0, steps, t);
  }
}
