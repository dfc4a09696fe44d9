/**
 * The decision the interactive read loop takes on each input line: the line
 * is stripped of surrounding whitespace and lower-cased; "q" quits, anything
 * else (the empty line included) starts or restarts the timer.
 */
module Command {
  datatype Command = Quit | Restart  // Restart: start, or restart when running

  /** The characters for which Python's str.isspace holds. */
  const Whitespace: set<char> :=
    {'\U{9}', '\U{a}', '\U{b}', '\U{c}', '\U{d}', '\U{1c}', '\U{1d}', '\U{1e}', '\U{1f}', '\U{20}',
     '\U{85}', '\U{a0}', '\U{1680}', '\U{2000}', '\U{2001}', '\U{2002}', '\U{2003}', '\U{2004}',
     '\U{2005}', '\U{2006}', '\U{2007}', '\U{2008}', '\U{2009}', '\U{200a}', '\U{2028}', '\U{2029}',
     '\U{202f}', '\U{205f}', '\U{3000}'}

  predicate IsSpace(ch: char) {
    ch in Whitespace
  }

  predicate AllSpace(s: string) { forall i :: 0 <= i < |s| ==> IsSpace(s[i]) }

  /** `s` without its leading whitespace. */
  function TrimStart(s: string): string {
    if s != [] && IsSpace(s[0]) then TrimStart(s[1..]) else s
  }

  /** `s` without its trailing whitespace. */
  function TrimEnd(s: string): string {
    if s != [] && IsSpace(s[|s| - 1]) then TrimEnd(s[..|s| - 1]) else s
  }

  /** TrimStart leaves a suffix of the line. */
  lemma {:induction false} TrimStartSuffix(s: string)
    ensures |TrimStart(s)| <= |s| && TrimStart(s) == s[|s| - |TrimStart(s)|..]
  {
    if s != [] && IsSpace(s[0]) {
      TrimStartSuffix(s[1..]);
    }
  }

  /** Everything TrimStart removes is whitespace. */
  lemma {:induction false} TrimStartPad(s: string)
    ensures |TrimStart(s)| <= |s| && AllSpace(s[..|s| - |TrimStart(s)|])
  {
    if s != [] && IsSpace(s[0]) {
      var t := s[1..];
      TrimStartPad(t);
      var k := |s| - |TrimStart(s)|;
      var pad, rest := s[..k], t[..k - 1];
      forall i | 0 <= i < |pad|
        ensures IsSpace(pad[i])
      {
        if i > 0 {
          assert pad[i] == rest[i - 1];
        }
      }
    }
  }

  /** TrimStart leaves no leading whitespace. */
  lemma {:induction false} TrimStartFirst(s: string)
    ensures TrimStart(s) == [] || !IsSpace(TrimStart(s)[0])
  {
    if s != [] && IsSpace(s[0]) {
      TrimStartFirst(s[1..]);
    }
  }

  /** TrimEnd leaves a prefix of the line. */
  lemma {:induction false} TrimEndPrefix(s: string)
    ensures |TrimEnd(s)| <= |s| && TrimEnd(s) == s[..|TrimEnd(s)|]
  {
    if s != [] && IsSpace(s[|s| - 1]) {
      TrimEndPrefix(s[..|s| - 1]);
    }
  }

  /** Everything TrimEnd removes is whitespace. */
  lemma {:induction false} TrimEndPad(s: string)
    ensures |TrimEnd(s)| <= |s| && AllSpace(s[|TrimEnd(s)|..])
  {
    if s != [] && IsSpace(s[|s| - 1]) {
      var t := s[..|s| - 1];
      TrimEndPad(t);
      var k := |TrimEnd(s)|;
      var pad, rest := s[k..], t[k..];
      forall i | 0 <= i < |pad|
        ensures IsSpace(pad[i])
      {
        if i < |rest| {
          assert pad[i] == rest[i];
        }
      }
    }
  }

  /** TrimEnd leaves no trailing whitespace. */
  lemma {:induction false} TrimEndLast(s: string)
    ensures TrimEnd(s) == [] || !IsSpace(TrimEnd(s)[|TrimEnd(s)| - 1])
  {
    if s != [] && IsSpace(s[|s| - 1]) {
      TrimEndLast(s[..|s| - 1]);
    }
  }

  /** Python's str.strip() with no argument. */
  function Strip(s: string): string {
    TrimEnd(TrimStart(s))
  }

  lemma {:induction false} TrimStartOf(pad: string, t: string)
    requires AllSpace(pad) && (t == [] || !IsSpace(t[0]))
    ensures TrimStart(pad + t) == t
  {
    if pad == [] {
      assert pad + t == t;
    } else {
      assert (pad + t)[1..] == pad[1..] + t;
      TrimStartOf(pad[1..], t);
    }
  }

  lemma {:induction false} TrimEndOf(t: string, pad: string)
    requires AllSpace(pad) && (t == [] || !IsSpace(t[|t| - 1]))
    ensures TrimEnd(t + pad) == t
  {
    if pad == [] {
      assert t + pad == t;
    } else {
      var s := t + pad;
      assert s[..|s| - 1] == t + pad[..|pad| - 1];
      TrimEndOf(t, pad[..|pad| - 1]);
    }
  }

  /**
   * Strip removes exactly the surrounding whitespace: a line made of
   * whitespace, a core that neither starts nor ends with whitespace, and
   * whitespace again strips to that core.
   */
  lemma StripOf(left: string, core: string, right: string)
    requires AllSpace(left) && AllSpace(right)
    requires core == [] || (!IsSpace(core[0]) && !IsSpace(core[|core| - 1]))
    ensures Strip(left + core + right) == core
  {
    if core == [] {
      assert left + core + right == left + right;
      TrimStartOf(left + right, []);
      assert left + right + [] == left + right;
    } else {
      assert left + core + right == left + (core + right);
      TrimStartOf(left, core + right);
      TrimEndOf(core, right);
    }
  }

  /** Python's str.lower() on one character, for the characters whose lower case is ASCII. */
  function LowerChar(ch: char): char {
    if 'A' <= ch <= 'Z' then (ch as int - 'A' as int + 'a' as int) as char else ch
  }

  function Lower(s: string): string {
    if s == [] then [] else [LowerChar(s[0])] + Lower(s[1..])
  }

  /** `user_input = input().strip().lower()`; then `'q'` quits and every other line starts. */
  function Decide(line: string): Command {
    if Lower(Strip(line)) == "q" then Quit else Restart
  }

  /** Only "q" and "Q" lower-case to "q". */
  lemma LowerIsQ(t: string)
    ensures Lower(t) == "q" <==> t == "q" || t == "Q"
  { }

  /** A line quits exactly when it strips to "q" or "Q". */
  lemma DecideQuit(line: string)
    ensures Decide(line) == Quit <==> Strip(line) == "q" || Strip(line) == "Q"
  {
    LowerIsQ(Strip(line));
  }

  /** A blank line, the empty line included, starts or restarts the timer. */
  lemma BlankLineStarts(line: string)
    requires AllSpace(line)
    ensures Decide(line) == Restart
  {
    StripOf(line, [], []);
    assert line + [] + [] == line;
    DecideQuit(line);
  }

  /** "q" or "Q", surrounded by any whitespace, quits. */
  lemma QuitWithPadding(left: string, key: char, right: string)
    requires AllSpace(left) && AllSpace(right) && (key == 'q' || key == 'Q')
    ensures Decide(left + [key] + right) == Quit
  {
    StripOf(left, [key], right);
    DecideQuit(left + [key] + right);
  }
}
