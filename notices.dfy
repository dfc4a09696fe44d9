/**
 * What the timer tells the user. Every notice is printed once on the console
 * (after a "[HH:MM:SS] " prefix, which is not modelled) and spoken once.
 */
module Notices {
  import opened Duration

  datatype Notice =
    | Started                  // start_timer
    | Announced(elapsed: Clock) // one tick of voice_announce
    | Finished(total: Clock)    // stop_timer on a running timer

  /** The console line after its time prefix. */
  function ConsoleText(n: Notice): string {
    match n
    case Started => "计时开始！"
    case Announced(c) => Announcement(c)
    case Finished(c) => "计时结束！" + FinalTime(c)
  }

  /** The text handed to the speech engine. */
  function SpeechText(n: Notice): string {
    match n
    case Started => "计时开始"
    case Announced(c) => Announcement(c)
    case Finished(c) => "计时结束，" + FinalTime(c)
  }

  /** A common prefix can be cancelled. */
  lemma CancelPrefix(prefix: string, x: string, y: string)
    requires prefix + x == prefix + y
    ensures x == y
  {
    assert x == (prefix + x)[|prefix|..];
    assert y == (prefix + y)[|prefix|..];
  }

  /** The first and third characters of a console line tell the kind of notice. */
  lemma ConsoleTextKind(n: Notice)
    ensures |ConsoleText(n)| >= 3
    ensures ConsoleText(n)[0] == ' ' <==> n.Announced?
    ensures !n.Announced? ==> (ConsoleText(n)[2] == '开' <==> n.Started?)
  {
  }

  /** The console line determines the notice, elapsed time included. */
  lemma ConsoleTextInjective(a: Notice, b: Notice)
    requires ConsoleText(a) == ConsoleText(b)
    ensures a == b
  {
    ConsoleTextKind(a);
    ConsoleTextKind(b);
    if a.Announced? {
      assert b.Announced?;
      CancelPrefix(" ", Body(a.elapsed), Body(b.elapsed));
      BodyInjective(a.elapsed, b.elapsed);
    } else if a.Finished? {
      assert b.Finished?;
      FinishedTextInjective(a.total, b.total);
    }
  }

  lemma FinishedTextInjective(c: Clock, d: Clock)
    requires ConsoleText(Finished(c)) == ConsoleText(Finished(d))
    ensures c == d
  {
    CancelPrefix("计时结束！", FinalTime(c), FinalTime(d));
    CancelPrefix("总计时间: ", Body(c), Body(d));
    BodyInjective(c, d);
  }
}
