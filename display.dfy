/**
 * The two lookups the template shows: getBackgroundColor and the text of
 * getStatus, each a switch on the current prayer name with a default branch.
 */
module Display {

  const LoadingText := "Loading..."
  const Separator := " — current prayer: "
  const AwaitingText := "Awaiting the next prayer."
  const DefaultColor := "#000000"

  /** The names with a case of their own in getStatus: the five prayers. */
  const MessageNames: set<string> := {"Fajr", "Dhuhr", "Asr", "Maghrib", "Isha"}

  /** The names with a colour of their own: Isha shares the default branch. */
  const ColoredNames: set<string> := {"Fajr", "Dhuhr", "Asr", "Maghrib"}

  function BackgroundColor(prayer: string): (color: string)
    ensures color == DefaultColor <==> prayer !in ColoredNames
  {
    if prayer == "Fajr" then "#5f5cfa"
    else if prayer == "Dhuhr" then "#ffbb00"
    else if prayer == "Asr" then "#eb4640"
    else if prayer == "Maghrib" then "#6bff4d"
    else DefaultColor
  }

  /** The message for each name; the longer texts are written as
      concatenations of their clauses, which spell the same strings. */
  function Message(prayer: string): (message: string)
    ensures message == AwaitingText <==> prayer !in MessageNames
  {
    if prayer == "Fajr" then "May your prayer be accepted."
    else if prayer == "Dhuhr" then "There is no god but Allah. " + "Muhammad is the messenger of God."
    else if prayer == "Asr" then
      "O Allah, send blessings upon Muhammad, " + "the unlettered Prophet, " + "and upon his family, "
      + "and grant them best of peace."
    else if prayer == "Maghrib" then "Recite Astaghfirullah  ."
    else if prayer == "Isha" then "To Allah, we belong, " + "and to him, we will return."
    else AwaitingText
  }

  /** Every branch of the switch has a text. */
  lemma MessageIsNotEmpty(prayer: string)
    ensures |Message(prayer)| > 0
  {
    if prayer == "Fajr" {
    } else if prayer == "Dhuhr" {
    } else if prayer == "Asr" {
    } else if prayer == "Maghrib" {
    } else if prayer == "Isha" {
    }
  }

  /** The three parts of a concatenation can be read back from it. */
  lemma ThreeParts(a: string, b: string, c: string)
    ensures (a + b + c)[..|a|] == a
    ensures (a + b + c)[|a|..|a| + |b|] == b
    ensures (a + b + c)[|a| + |b|..] == c
  {
    var s := a + b + c;
    assert s[..|a|] == a;
    assert s[|a|..|a| + |b|] == b;
  }

  /** The text getStatus shows once the timings request has finished: the
      message, the separator and the name. */
  function StatusLine(prayer: string): (line: string)
    ensures line != LoadingText
    ensures |line| > |Separator| + |prayer|
    ensures line[|line| - |prayer|..] == prayer
    ensures line[|line| - |prayer| - |Separator|..|line| - |prayer|] == Separator
    ensures line[..|line| - |prayer| - |Separator|] == Message(prayer)
  {
    MessageIsNotEmpty(prayer);
    ThreeParts(Message(prayer), Separator, prayer);
    Message(prayer) + Separator + prayer
  }

  /** getStatus on the two fields it reads. */
  function Status(loading: bool, prayer: string): (status: string)
    ensures status == LoadingText <==> loading
    ensures !loading ==> status == StatusLine(prayer)
  {
    if loading then LoadingText else StatusLine(prayer)
  }

  // ---------------------------------------------------------------------------
  // Properties

  /** The four coloured periods get four different colours. */
  lemma ColorsTellPeriodsApart(p: string, q: string)
    requires BackgroundColor(p) == BackgroundColor(q)
    ensures p == q || (p !in ColoredNames && q !in ColoredNames)
  {
  }
}
