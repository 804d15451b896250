/**
 * The reminder email: the numbered list of pending titles, the subject and
 * plain-text body that report their count, and the send that answers false
 * instead of failing.
 */
module EmailService {
  import opened Wrappers
  import opened Text

  /** The SMTP credentials read from the environment. */
  datatype SmtpConfig = SmtpConfig(user: Option<string>, pass: Option<string>)

  /** The transport can only be set up when both the user and the password are non-empty. */
  predicate Configured(config: SmtpConfig) {
    config.user.Some? && config.user.value != "" && config.pass.Some? && config.pass.value != ""
  }

  /** The list line of the title at 0-based position `i`: numbering starts at 1. */
  function NumberedLine(i: nat, title: string): (line: string)
    ensures |line| == |NatText(i + 1)| + 2 + |title|
    ensures line[..|NatText(i + 1)|] == NatText(i + 1)
    ensures line[|NatText(i + 1)|..|NatText(i + 1)| + 2] == ". "
    ensures line[|NatText(i + 1)| + 2..] == title
  {
    NatText(i + 1) + ". " + title
  }

  /** One numbered line per title, in the order of the titles. */
  function NumberedLines(titles: seq<string>): (lines: seq<string>)
    ensures |lines| == |titles|
    ensures forall i :: 0 <= i < |titles| ==> lines[i] == NumberedLine(i, titles[i])
  {
    seq(|titles|, i requires 0 <= i < |titles| => NumberedLine(i, titles[i]))
  }

  /** `todoList`: the numbered lines joined by newlines; empty for no titles. */
  function TodoList(titles: seq<string>): (r: string)
    ensures titles == [] ==> r == ""
    ensures |titles| == 1 ==> r == NumberedLine(0, titles[0])
  {
    Join(NumberedLines(titles), '\n')
  }

  /**
   * Reading the list back: it splits at newlines into exactly the numbered
   * lines, one per title (so there is no trailing newline), each of which
   * gives back its number and its title.
   */
  lemma TodoListRoundTrip(titles: seq<string>)
    requires titles != []
    requires forall i :: 0 <= i < |titles| ==> '\n' !in titles[i]
    ensures Split(TodoList(titles), '\n') == NumberedLines(titles)
  {
    var lines := NumberedLines(titles);
    forall i | 0 <= i < |lines| ensures '\n' !in lines[i] {
      var digits := NatText(i + 1);
      NatTextShape(i + 1);
      var line := lines[i];
      assert line == digits + ". " + titles[i];
      forall k | 0 <= k < |line| ensures line[k] != '\n' {
        if k < |digits| {
          assert line[k] == digits[k] && IsDigit(digits[k]);
        } else if k >= |digits| + 2 {
          assert line[k] == titles[i][k - |digits| - 2];
        }
      }
    }
    SplitJoin(lines, '\n');
  }

  const DefaultName: string := "Utilisateur"

  /** `userName || 'Utilisateur'`: an empty name is replaced. */
  function DisplayName(userName: string): (r: string)
    ensures r != ""
    ensures userName != "" ==> r == userName
  {
    if userName == "" then DefaultName else userName
  }

  const SubjectStart: string := "📋 Rappel : "
  const SubjectEnd: string := " tâche(s) en attente"

  /** The subject, which reports how many todos are pending. */
  function Subject(count: nat): string {
    SubjectStart + NatText(count) + SubjectEnd
  }

  /** The subject tells apart different counts. */
  lemma SubjectDeterminesCount(a: nat, b: nat)
    requires Subject(a) == Subject(b)
    ensures a == b
  {
    var sa, sb := Subject(a), Subject(b);
    assert NatText(a) == sa[|SubjectStart|..|sa| - |SubjectEnd|];
    assert NatText(b) == sb[|SubjectStart|..|sb| - |SubjectEnd|];
    NatTextInjective(a, b);
  }

  const BodyListIntro: string := " " + "tâche(s) non complétée(s) dans votre liste :\n\n"
  const BodyClosing: string := "\n\nN'oubliez pas de les compléter pour maintenir votre streak ! 💪\n\nCordialement,\nHabit Tracker"

  /** The text after the count does not start with a digit, so it ends the count. */
  lemma ListIntroNotDigit()
    ensures BodyListIntro != [] && !IsDigit(BodyListIntro[0])
  {
    assert BodyListIntro[0] == ' ';
  }

  /** The greeting, up to where the count is written. */
  function BodyHead(userName: string): string {
    "Bonjour " + DisplayName(userName) + ",\n\nVous avez "
  }

  /** The part of the body that varies with the titles: the count, then the list. */
  function CountAndList(titles: seq<string>): string {
    NatText(|titles|) + (BodyListIntro + TodoList(titles))
  }

  /** The plain-text body: greeting, the count, then the numbered list, then the closing. */
  function BodyText(userName: string, titles: seq<string>): string {
    BodyHead(userName) + CountAndList(titles) + BodyClosing
  }

  /** The middle of `h + m + c` is `m`. */
  lemma Framed(h: string, m: string, c: string, s: string)
    requires s == h + m + c
    ensures |h| + |c| <= |s| && s[|h|..|s| - |c|] == m
  {
    assert s[|h|..|s| - |c|] == (h + m + c)[|h|..|h| + |m|];
  }

  /** How many digits `s` starts with. */
  function DigitPrefixLength(s: string): (n: nat)
    ensures n <= |s|
  {
    if s == [] || !IsDigit(s[0]) then 0 else 1 + DigitPrefixLength(s[1..])
  }

  /** Digits followed by a non-digit: the digits are exactly the digit prefix. */
  lemma {:induction false} DigitsThenOther(x: string, y: string)
    requires forall i :: 0 <= i < |x| ==> IsDigit(x[i])
    requires y != [] && !IsDigit(y[0])
    ensures DigitPrefixLength(x + y) == |x|
  {
    if x != [] {
      assert (x + y)[1..] == x[1..] + y;
      DigitsThenOther(x[1..], y);
    } else {
      assert x + y == y;
    }
  }

  /** Equal bodies for the same user have equal counts and lists. */
  lemma SameBodySameMiddle(userName: string, a: seq<string>, b: seq<string>)
    requires BodyText(userName, a) == BodyText(userName, b)
    ensures CountAndList(a) == CountAndList(b)
  {
    Framed(BodyHead(userName), CountAndList(a), BodyClosing, BodyText(userName, a));
    Framed(BodyHead(userName), CountAndList(b), BodyClosing, BodyText(userName, b));
  }

  /** Digits, then a fixed text starting with a non-digit, then a tail: digits and tail are both recoverable. */
  lemma DigitsSplit(x: string, m: string, y: string, x2: string, y2: string)
    requires x + (m + y) == x2 + (m + y2)
    requires forall i :: 0 <= i < |x| ==> IsDigit(x[i])
    requires forall i :: 0 <= i < |x2| ==> IsDigit(x2[i])
    requires m != [] && !IsDigit(m[0])
    ensures x == x2 && y == y2
  {
    DigitsThenOther(x, m + y);
    DigitsThenOther(x2, m + y2);
    var s := x + (m + y);
    assert x == s[..|x|] && x2 == s[..|x2|];
    assert y == s[|x| + |m|..] && y2 == s[|x2| + |m|..];
  }

  /** The body tells apart different counts of pending todos, and different lists. */
  lemma BodyDeterminesCount(userName: string, a: seq<string>, b: seq<string>)
    requires BodyText(userName, a) == BodyText(userName, b)
    ensures |a| == |b|
    ensures TodoList(a) == TodoList(b)
  {
    SameBodySameMiddle(userName, a, b);
    NatTextShape(|a|);
    NatTextShape(|b|);
    ListIntroNotDigit();
    DigitsSplit(NatText(|a|), BodyListIntro, TodoList(a), NatText(|b|), TodoList(b));
    NatTextInjective(|a|, |b|);
  }

  /** When no title holds a newline, the body gives back the titles themselves, in order. */
  lemma BodyDeterminesTitles(userName: string, a: seq<string>, b: seq<string>)
    requires forall i :: 0 <= i < |a| ==> '\n' !in a[i]
    requires forall i :: 0 <= i < |b| ==> '\n' !in b[i]
    requires BodyText(userName, a) == BodyText(userName, b)
    ensures a == b
  {
    BodyDeterminesCount(userName, a, b);
    if a != [] {
      TodoListRoundTrip(a);
      TodoListRoundTrip(b);
      forall i | 0 <= i < |a| ensures a[i] == b[i] {
        var la, lb := NumberedLine(i, a[i]), NumberedLine(i, b[i]);
        assert la == NumberedLines(a)[i] == NumberedLines(b)[i] == lb;
      }
    }
  }

  /** The message handed to the transport. */
  datatype Mail = Mail(from: string, to: string, subject: string, text: string)

  /** The sender shown in the reminder: the SMTP user under the name "Habit Tracker". */
  function Sender(smtpUser: string): string {
    "\"Habit Tracker\" <" + smtpUser + ">"
  }

  /**
   * The reminder for `titles`, sent from the configured SMTP user; its
   * subject and its body each report the count (`SubjectDeterminesCount`,
   * `BodyDeterminesCount`) and its body lists the titles (`BodyDeterminesTitles`).
   */
  function ReminderMail(smtpUser: string, to: string, userName: string, titles: seq<string>): (m: Mail)
    ensures m.from == Sender(smtpUser) && m.to == to
    ensures m.subject == Subject(|titles|)
    ensures m.text == BodyText(userName, titles)
  {
    Mail(Sender(smtpUser), to, Subject(|titles|), BodyText(userName, titles))
  }

  /**
   * `sendTodoReminderEmail`: false without trying when the credentials are
   * missing; otherwise whatever the transport reports, a failed delivery
   * being false rather than an error.
   */
  function SendReminder(config: SmtpConfig, transport: Mail -> bool, to: string, userName: string, titles: seq<string>): (sent: bool)
    ensures !Configured(config) ==> !sent
    ensures Configured(config) ==> sent == transport(ReminderMail(config.user.value, to, userName, titles))
  {
    Configured(config) && transport(ReminderMail(config.user.value, to, userName, titles))
  }
}
