/**
  The decoded reply of the booking endpoint (`occasion`, `bundle`, `res` in
  main.go) and the notification text `doCheck` makes of it.
 */
module Response {
  import opened Strings

  /** One open exam slot. */
  datatype Occasion = Occasion(date: string, time: string, locationName: string)

  /** The slots of one search window. */
  datatype Bundle = Bundle(occasions: seq<Occasion>)

  datatype Res = Res(bundles: seq<Bundle>)

  /** `fmt.Sprintf("%s %s at %s", date, time, locationName)`. */
  function FormatOccasion(o: Occasion): (line: string)
    ensures |line| == |o.date| + |o.time| + |o.locationName| + 5
  {
    o.date + " " + o.time + " at " + o.locationName
  }

  /** One formatted line per occasion, in order. */
  function Lines(occasions: seq<Occasion>): (lines: seq<string>)
    ensures |lines| == |occasions|
    ensures forall i :: 0 <= i < |lines| ==> lines[i] == FormatOccasion(occasions[i])
  {
    seq(|occasions|, i requires 0 <= i < |occasions| => FormatOccasion(occasions[i]))
  }

  /** The message of a reply: the lines of the first bundle joined by "\n";
      empty when there is no bundle. It is non-empty exactly when the first
      bundle holds an occasion, which is when the program notifies. */
  function Message(res: Res): (msg: string)
    ensures |msg| > 0 <==> |res.bundles| > 0 && |res.bundles[0].occasions| > 0
  {
    if |res.bundles| > 0 then Join(Lines(res.bundles[0].occasions), "\n") else ""
  }

  /** The tail of `doCheck`: with a bundle, append one line per occasion of
      the first bundle, then join them by "\n"; without one, the empty
      message. */
  method BuildMessage(res: Res) returns (msg: string)
    ensures msg == Message(res)
  {
    if |res.bundles| > 0 {
      var occasions := res.bundles[0].occasions;
      var lines: seq<string> := [];
      for k := 0 to |occasions|
        invariant lines == Lines(occasions[..k])
      {
        lines := lines + [FormatOccasion(occasions[k])];
      }
      assert occasions[..|occasions|] == occasions;
      return Join(lines, "\n");
    }
    return "";
  }

  /** Bundles after the first never reach the message. */
  lemma MessageIgnoresLaterBundles(first: Bundle, later1: seq<Bundle>, later2: seq<Bundle>)
    ensures Message(Res([first] + later1)) == Message(Res([first] + later2))
  {}

  /** No field of the occasion contains a line break. */
  predicate SingleLine(o: Occasion) {
    '\n' !in o.date && '\n' !in o.time && '\n' !in o.locationName
  }

  /** When no field holds a '\n', the message's lines are exactly the
      formatted occasions of the first bundle, in order. */
  lemma MessageLines(first: Bundle, later: seq<Bundle>)
    requires |first.occasions| > 0
    requires forall i :: 0 <= i < |first.occasions| ==> SingleLine(first.occasions[i])
    ensures Split(Message(Res([first] + later)), '\n') == Lines(first.occasions)
  {
    var lines := Lines(first.occasions);
    forall i | 0 <= i < |lines| ensures '\n' !in lines[i] {
      var o := first.occasions[i];
      assert lines[i] == o.date + (" " + (o.time + (" at " + o.locationName)));
    }
    SplitJoin(lines, '\n');
  }

  /** The line is unambiguous when date and time hold no space: equal lines
      come from equal occasions. */
  lemma FormatOccasionInjective(o1: Occasion, o2: Occasion)
    requires ' ' !in o1.date && ' ' !in o1.time
    requires ' ' !in o2.date && ' ' !in o2.time
    requires FormatOccasion(o1) == FormatOccasion(o2)
    ensures o1 == o2
  {
    var tail1, tail2 := "at " + o1.locationName, "at " + o2.locationName;
    var rest1, rest2 := o1.time + " " + tail1, o2.time + " " + tail2;
    FormatOccasionWords(o1);
    FormatOccasionWords(o2);
    SpaceDelimited(o1.date, rest1, o2.date, rest2);
    SpaceDelimited(o1.time, tail1, o2.time, tail2);
    assert o1.locationName == tail1[3..];
    assert o2.locationName == tail2[3..];
  }

  /** The line as three space-separated parts: date, time, and the rest. */
  lemma FormatOccasionWords(o: Occasion)
    ensures FormatOccasion(o) == o.date + " " + (o.time + " " + ("at " + o.locationName))
  {
    assert " at " + o.locationName == " " + ("at " + o.locationName);
  }

  /** A space-free word followed by a space is recovered from the text. */
  lemma SpaceDelimited(w1: string, rest1: string, w2: string, rest2: string)
    requires ' ' !in w1 && ' ' !in w2
    requires w1 + " " + rest1 == w2 + " " + rest2
    ensures w1 == w2 && rest1 == rest2
  {
    var s := w1 + " " + rest1;
    assert |w1| == |w2| by {
      assert s[|w1|] == ' ';
      assert s[|w2|] == ' ';
      assert forall i :: 0 <= i < |w1| ==> s[i] == w1[i];
      assert forall i :: 0 <= i < |w2| ==> s[i] == w2[i];
    }
    assert w1 == s[..|w1|] == w2;
    assert rest1 == s[|w1| + 1..] == rest2;
  }

  /** The worked example: one occasion gives one line. */
  lemma MessageExample()
    ensures Message(Res([Bundle([Occasion("2024-05-01", "10:00", "Site A")])])) == "2024-05-01 10:00 at Site A"
  {}
}
