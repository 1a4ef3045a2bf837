/**
 * The subscribers admin screen: the CSV export of the listed subscribers
 * and the deletion of a subscriber. The export joins fields with "," and
 * lines with "\n" and applies none of the field quoting of section 2 of
 * RFC 4180. The locale's date rendering, the confirmation dialog and the
 * database's error are parameters.
 */
module AdminSubscribers {
  import opened Wrappers
  import opened Text
  import opened Crud

  /** A `subscribers` row as listed. */
  datatype Subscriber = Subscriber(id: string, email: string, source: Option<string>, subscribedAt: Option<string>)

  const Header: seq<string> := ["Email", "Source", "Subscribed At"]

  /** `["Email", "Source", "Subscribed At"].join(",")`. */
  const HeaderLine := Join(Header, ",")

  /** The header line's text. */
  lemma HeaderLineText()
    ensures HeaderLine == "Email,Source,Subscribed At"
  {
    var last: seq<string> := ["Subscribed At"];
    var tail: seq<string> := ["Source", "Subscribed At"];
    assert tail[1..] == last && Header[1..] == tail;
    assert Join(last, ",") == "Subscribed At";
    assert Join(tail, ",") == "Source" + "," + "Subscribed At";
  }

  /**
   * One subscriber's fields: the email, the source (null joins as an empty
   * field) and `new Date(subscribed_at).toLocaleDateString()`.
   */
  function Fields(s: Subscriber, localeDate: Option<string> -> string): (f: seq<string>)
    ensures |f| == 3 && f[0] == s.email && f[1] == OrEmpty(s.source) && f[2] == localeDate(s.subscribedAt)
  {
    [s.email, OrEmpty(s.source), localeDate(s.subscribedAt)]
  }

  /** `row.join(",")`. */
  function Line(s: Subscriber, localeDate: Option<string> -> string): string {
    Join(Fields(s, localeDate), ",")
  }

  /** The header line, then one line per subscriber in list order. */
  function Lines(subs: seq<Subscriber>, localeDate: Option<string> -> string): (lines: seq<string>)
    ensures |lines| == |subs| + 1 && lines[0] == HeaderLine
    ensures forall i :: 0 <= i < |subs| ==> lines[i + 1] == Line(subs[i], localeDate)
  {
    [HeaderLine] + seq(|subs|, i requires 0 <= i < |subs| => Line(subs[i], localeDate))
  }

  /** `exportToCSV`'s text: the lines joined by "\n", with no trailing newline. */
  function Csv(subs: seq<Subscriber>, localeDate: Option<string> -> string): string {
    Join(Lines(subs, localeDate), "\n")
  }

  /** With no subscribers the export is the header line alone. */
  lemma CsvOfNone(localeDate: Option<string> -> string)
    ensures Csv([], localeDate) == HeaderLine
  {
  }

  /** One more subscriber adds a newline and that subscriber's line at the end. */
  lemma {:induction false} CsvAppend(subs: seq<Subscriber>, s: Subscriber, localeDate: Option<string> -> string)
    ensures Csv(subs + [s], localeDate) == Csv(subs, localeDate) + "\n" + Line(s, localeDate)
  {
    var ls := Lines(subs, localeDate);
    assert Lines(subs + [s], localeDate) == ls + [Line(s, localeDate)];
    JoinAppend(ls, Line(s, localeDate), "\n");
  }

  /** The export starts with the header line. */
  lemma {:induction false} CsvStartsWithHeader(subs: seq<Subscriber>, localeDate: Option<string> -> string)
    ensures HeaderLine <= Csv(subs, localeDate)
  {
    var ls := Lines(subs, localeDate);
    if |ls| > 1 {
      assert Csv(subs, localeDate) == HeaderLine + "\n" + Join(ls[1..], "\n");
    }
  }

  predicate NoNewline(s: Subscriber, localeDate: Option<string> -> string) {
    forall k :: 0 <= k < 3 ==> '\n' !in Fields(s, localeDate)[k]
  }

  /**
   * When no field holds a newline, splitting the export at newlines gives
   * the header and one line per subscriber, in order: n + 1 lines.
   */
  lemma {:induction false} CsvLines(subs: seq<Subscriber>, localeDate: Option<string> -> string)
    requires forall i :: 0 <= i < |subs| ==> NoNewline(subs[i], localeDate)
    ensures Split(Csv(subs, localeDate), "\n") == Lines(subs, localeDate)
    ensures |Split(Csv(subs, localeDate), "\n")| == |subs| + 1
  {
    var ls := Lines(subs, localeDate);
    forall k | 0 <= k < |ls| ensures '\n' !in ls[k] {
      if k > 0 {
        var f := Fields(subs[k - 1], localeDate);
        assert NoNewline(subs[k - 1], localeDate);
        JoinFree(f, ",", '\n');
      }
    }
    SplitJoin(ls, '\n');
  }

  /** When no field holds a comma, splitting a subscriber's line at commas gives its three fields back. */
  lemma {:induction false} LineFields(s: Subscriber, localeDate: Option<string> -> string)
    requires forall k :: 0 <= k < 3 ==> ',' !in Fields(s, localeDate)[k]
    ensures Split(Line(s, localeDate), ",") == Fields(s, localeDate)
  {
    SplitJoin(Fields(s, localeDate), ',');
  }

  /**
   * Fields are not quoted: an email holding a comma does not come back as
   * the line's first field.
   */
  lemma {:induction false} CommaInEmailBreaksLine(s: Subscriber, localeDate: Option<string> -> string)
    requires ',' in s.email
    ensures Split(Line(s, localeDate), ",")[0] != s.email
  {
    var first := Split(Line(s, localeDate), ",")[0];
    NoCharNoOccurrence(first, ',');
  }

  class SubscribersScreen {
    var subscribers: map<string, Subscriber>

    constructor (table: map<string, Subscriber>)
      ensures subscribers == table
    {
      subscribers := table;
    }

    /**
     * `deleteSubscriber`: a declined confirmation leaves the list as it is;
     * otherwise the subscriber with that id is removed, unless the delete
     * fails.
     */
    method DeleteSubscriber(id: string, confirmed: bool, writeError: Option<string>) returns (reload: bool)
      modifies this
      ensures reload == (confirmed && writeError.None?)
      ensures subscribers == if reload then Removed(old(subscribers), id) else old(subscribers)
    {
      reload := false;
      if !confirmed {
        return;
      }
      if writeError.None? {
        subscribers := Removed(subscribers, id);
        reload := true;
      }
    }
  }
}
