/**
 * The manifesto typewriter of the landing section: one of five fixed lines is
 * typed out a character at a time, held, deleted a character at a time, and
 * then the next line (cyclically) is typed.
 */
module HomeSection {

  /** The five manifesto lines, in display order. */
  const Manifesto: seq<string> := [
    "正在构建交互式数据可视化...",
    "正在编写设计笔记与思考...",
    "正在培育创意项目种子...",
    "正在探索新技术边界...",
    "正在记录学习轨迹..."]

  /** Milliseconds between two steps while deleting and while typing. */
  const DeleteDelay: nat := 30
  const TypeDelay: nat := 80

  /** Milliseconds a fully typed line is held before deleting starts. */
  const HoldDelay: nat := 2000

  /** The three pieces of component state. */
  datatype Typewriter = Typewriter(index: int, text: string, deleting: bool)

  /** The state on mount: first line, nothing typed, typing. */
  const Initial: Typewriter := Typewriter(0, "", false)

  /** The state at the start of line i. */
  function Start(i: int): Typewriter {
    Typewriter(i, "", false)
  }

  /** The index names a line and the shown text is a prefix of that line. */
  predicate Valid(s: Typewriter) {
    0 <= s.index < |Manifesto| && s.text <= Manifesto[s.index]
  }

  /** The delay before the next step fires. */
  function Delay(s: Typewriter): (ms: nat)
    ensures s.deleting ==> ms == DeleteDelay
    ensures !s.deleting ==> ms == TypeDelay
    ensures ms < TypeDelay <==> s.deleting
  {
    if s.deleting then DeleteDelay else TypeDelay
  }

  /**
   * One timer step. Typing extends the shown text by the next character of
   * the line; at full length nothing changes (the hold timer is armed
   * instead, see HoldArmed). Deleting drops the last character; once empty,
   * typing resumes on the next line.
   */
  function Tick(s: Typewriter): (r: Typewriter)
    requires 0 <= s.index < |Manifesto|
    ensures 0 <= r.index < |Manifesto|
    ensures r.index != s.index ==> s.deleting && s.text == "" && r == Start(Next(s.index))
    ensures r.deleting ==> s.deleting
  {
    var line := Manifesto[s.index];
    if !s.deleting then
      if |s.text| < |line| then s.(text := line[..|s.text| + 1]) else s
    else
      if |s.text| > 0 then s.(text := s.text[..|s.text| - 1])
      else Typewriter((s.index + 1) % |Manifesto|, s.text, false)
  }

  /** Whether the step at s arms the hold timer that later switches to deleting. */
  predicate HoldArmed(s: Typewriter)
    requires 0 <= s.index < |Manifesto|
  {
    !s.deleting && |s.text| >= |Manifesto[s.index]|
  }

  /** The hold timer's callback: switch to deleting. */
  function StartDeleting(s: Typewriter): (r: Typewriter)
    ensures r.deleting && r.index == s.index && r.text == s.text
  {
    s.(deleting := true)
  }

  /** Every line is non-empty, so typing always has a character to add. */
  lemma ManifestoNonEmpty(i: int)
    requires 0 <= i < |Manifesto|
    ensures |Manifesto[i]| > 0
  {
  }

  /** A typing step on a shorter text shows the line's prefix one character longer. */
  lemma TypingExtends(s: Typewriter)
    requires Valid(s) && !s.deleting && |s.text| < |Manifesto[s.index]|
    ensures Tick(s).text <= Manifesto[s.index]
    ensures |Tick(s).text| == |s.text| + 1
    ensures Tick(s).text[..|s.text|] == s.text
    ensures Tick(s).index == s.index && !Tick(s).deleting
  {
  }

  /** A deleting step on a non-empty text removes exactly its last character. */
  lemma DeletingShrinks(s: Typewriter)
    requires 0 <= s.index < |Manifesto| && s.deleting && |s.text| > 0
    ensures s.text == Tick(s).text + [s.text[|s.text| - 1]]
    ensures Tick(s).index == s.index && Tick(s).deleting
  {
  }

  /** A deleting step at the empty text advances cyclically to the next line and resumes typing. */
  lemma EmptyAdvances(s: Typewriter)
    requires 0 <= s.index < |Manifesto| && s.deleting && s.text == ""
    ensures Tick(s) == Start(if s.index == |Manifesto| - 1 then 0 else s.index + 1)
  {
  }

  /** At full length a typing step changes nothing and arms the hold timer. */
  lemma FullLineIdles(s: Typewriter)
    requires Valid(s) && !s.deleting && |s.text| == |Manifesto[s.index]|
    ensures Tick(s) == s && HoldArmed(s)
  {
  }

  /** The hold timer is armed only on a fully typed line, and a step then never starts deleting by itself. */
  lemma OnlyHoldStartsDeleting(s: Typewriter)
    requires Valid(s) && !s.deleting
    ensures HoldArmed(s) <==> s.text == Manifesto[s.index]
    ensures Tick(s).deleting == false
  {
  }

  /** Both transitions keep the state valid. */
  lemma TickValid(s: Typewriter)
    requires Valid(s)
    ensures Valid(Tick(s))
  {
    var line := Manifesto[s.index];
    if s.deleting && |s.text| > 0 {
      assert s.text[..|s.text| - 1] == line[..|s.text| - 1];
    }
  }

  lemma StartDeletingValid(s: Typewriter)
    requires Valid(s)
    ensures Valid(StartDeleting(s))
  {
  }

  lemma InitialValid()
    ensures Valid(Initial)
  {
  }

  /** n timer steps in a row, with no hold callback in between. */
  function Ticks(s: Typewriter, n: nat): Typewriter
    requires Valid(s)
    decreases n
  {
    if n == 0 then s else (TickValid(s); Ticks(Tick(s), n - 1))
  }

  /** n typing steps from a length-k prefix show the length-(k+n) prefix. */
  lemma {:induction false} TypeOut(s: Typewriter, n: nat)
    requires Valid(s) && !s.deleting && |s.text| + n <= |Manifesto[s.index]|
    ensures Ticks(s, n) == s.(text := Manifesto[s.index][..|s.text| + n])
    decreases n
  {
    if n == 0 {
      assert s.text == Manifesto[s.index][..|s.text|];
    } else {
      TickValid(s);
      TypeOut(Tick(s), n - 1);
    }
  }

  /** n deleting steps from a length-(k+n) prefix show the length-k prefix. */
  lemma {:induction false} DeleteDown(s: Typewriter, n: nat)
    requires Valid(s) && s.deleting && n <= |s.text|
    ensures Ticks(s, n) == s.(text := Manifesto[s.index][..|s.text| - n])
    decreases n
  {
    if n == 0 {
      assert s.text == Manifesto[s.index][..|s.text|];
    } else {
      TickValid(s);
      DeleteDown(Tick(s), n - 1);
    }
  }

  /**
   * One full cycle: typing the whole line, the hold callback, deleting the
   * whole line and one more step land at the start of the next line.
   */
  lemma {:induction false} FullCycle(i: int)
    requires 0 <= i < |Manifesto|
    ensures Valid(Ticks(Start(i), |Manifesto[i]|))
    ensures Ticks(Start(i), |Manifesto[i]|).text == Manifesto[i]
    ensures Valid(StartDeleting(Ticks(Start(i), |Manifesto[i]|)))
    ensures Ticks(StartDeleting(Ticks(Start(i), |Manifesto[i]|)), |Manifesto[i]| + 1)
            == Start((i + 1) % |Manifesto|)
  {
    var n := |Manifesto[i]|;
    TypeOut(Start(i), n);
    var full := Ticks(Start(i), n);
    assert full == Typewriter(i, Manifesto[i], false);
    var del := StartDeleting(full);
    DeleteDown(del, n);
    var empty := Ticks(del, n);
    assert empty == Typewriter(i, "", true);
    TicksSplit(del, n, 1);
  }

  /** Steps compose. */
  lemma {:induction false} TicksSplit(s: Typewriter, m: nat, n: nat)
    requires Valid(s)
    ensures Valid(Ticks(s, m))
    ensures Ticks(s, m + n) == Ticks(Ticks(s, m), n)
    decreases m
  {
    if m > 0 {
      TickValid(s);
      TicksSplit(Tick(s), m - 1, n);
    }
  }

  /** The line after i, as the cycle advances it. */
  function Next(i: int): int {
    (i + 1) % |Manifesto|
  }

  /**
   * One full cycle from a valid state: type to the end of the line, fire the
   * hold callback, then take one step per character plus the step that moves on.
   */
  function Cycle(s: Typewriter): (r: Typewriter)
    requires Valid(s)
    ensures Valid(r)
  {
    var n := |Manifesto[s.index]|;
    TicksSplit(s, n, 0);
    var held := StartDeleting(Ticks(s, n));
    StartDeletingValid(Ticks(s, n));
    TicksSplit(held, n + 1, 0);
    Ticks(held, n + 1)
  }

  /** A cycle from the start of line i ends at the start of the next line. */
  lemma CycleAdvances(i: int)
    requires 0 <= i < |Manifesto|
    ensures Cycle(Start(i)) == Start(Next(i))
  {
    FullCycle(i);
  }

  /**
   * Each cycle moves the typewriter to the start of a different line, and five
   * cycles bring it back to the start of the line it began with.
   */
  lemma FiveCyclesReturn(i: int)
    requires 0 <= i < |Manifesto|
    ensures Cycle(Start(i)) == Start(Next(i)) && Next(i) != i
    ensures Cycle(Cycle(Cycle(Cycle(Cycle(Start(i)))))) == Start(i)
  {
    var i1 := Next(i);
    var i2 := Next(i1);
    var i3 := Next(i2);
    var i4 := Next(i3);
    CycleAdvances(i);
    CycleAdvances(i1);
    CycleAdvances(i2);
    CycleAdvances(i3);
    CycleAdvances(i4);
    assert Next(i4) == i;
  }
}
