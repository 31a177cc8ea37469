/** Alert building of main.py:14-20, 57 and 69-72: the block shown for one
    match, the message that joins the blocks under a header, and the decision
    whether the webhook is posted to. */
module Alert {
  import opened Wrappers
  import Price

  /** `ALERT_THRESHOLD` (main.py:11), 1200.00, in cents. */
  const AlertThreshold: nat := 120000

  /** main.py:57: the block for a match titled `title` priced `cents`. It
      shows the title in bold and ends with the `:.2f` text of the price,
      which reads back as the price. */
  function Block(title: string, cents: nat): (b: string)
    ensures var p := Price.FormatCents(cents);
      |b| == |title| + 8 + |p| && b[..2] == "**" && b[2..2 + |title|] == title
      && b[2 + |title|..|title| + 8] == "**\n\U{1F4B5} $"
      && b[|title| + 8..] == p
      && Price.IsNumeral(b[|b| - |p|..]) && Price.NumeralCents(b[|b| - |p|..]) == cents
  {
    var p := Price.FormatCents(cents);
    var b := "**" + title + "**\n\U{1F4B5} $" + p;
    assert b[|b| - |p|..] == p;
    b
  }

  // ---------------------------------------------------------------------------
  // "\n\n".join

  /** `"\n\n".join(xs)` (main.py:18): empty for no strings, and otherwise
      ending exactly where the last string ends once they are laid out with
      two characters between neighbours. */
  function Join(xs: seq<string>): (r: string)
    ensures xs == [] ==> r == ""
    ensures xs != [] ==> |r| == Offset(xs, |xs| - 1) + |xs[|xs| - 1]|
  {
    if |xs| == 0 then ""
    else if |xs| == 1 then xs[0]
    else
      var n := |xs|;
      OffsetOfPrefix(xs, n - 1, n - 2);
      assert xs[..n - 1][n - 2] == xs[n - 2];
      Join(xs[..n - 1]) + "\n\n" + xs[n - 1]
  }

  /** Where `xs[k]` begins once the strings are laid out one after another
      with two characters between neighbours. */
  function Offset(xs: seq<string>, k: nat): nat
    requires k <= |xs|
  {
    if k == 0 then 0 else Offset(xs, k - 1) + |xs[k - 1]| + 2
  }

  lemma {:induction false} OffsetOfPrefix(xs: seq<string>, n: nat, k: nat)
    requires k <= n <= |xs|
    ensures Offset(xs[..n], k) == Offset(xs, k)
  {
    if k > 0 {
      OffsetOfPrefix(xs, n, k - 1);
      assert xs[..n][k - 1] == xs[k - 1];
    }
  }

  /** Every string stands at its offset in the joined text. */
  lemma {:induction false} JoinAt(xs: seq<string>, k: nat)
    requires k < |xs|
    ensures Offset(xs, k) + |xs[k]| <= |Join(xs)|
    ensures Join(xs)[Offset(xs, k)..Offset(xs, k) + |xs[k]|] == xs[k]
  {
    var n := |xs|;
    if n > 1 {
      var pre := xs[..n - 1];
      var jp := Join(pre);
      assert Join(xs) == jp + "\n\n" + xs[n - 1];
      OffsetOfPrefix(xs, n - 1, n - 2);
      assert pre[n - 2] == xs[n - 2];
      if k < n - 1 {
        JoinAt(pre, k);
        OffsetOfPrefix(xs, n - 1, k);
        assert pre[k] == xs[k];
      }
    }
  }

  /** Neighbouring strings are separated by a blank line. */
  lemma {:induction false} JoinSeparator(xs: seq<string>, k: nat)
    requires k + 1 < |xs|
    ensures Offset(xs, k + 1) <= |Join(xs)|
    ensures Join(xs)[Offset(xs, k) + |xs[k]|..Offset(xs, k + 1)] == "\n\n"
  {
    var n := |xs|;
    var pre := xs[..n - 1];
    var jp := Join(pre);
    assert Join(xs) == jp + "\n\n" + xs[n - 1];
    var lo, hi := Offset(xs, k) + |xs[k]|, Offset(xs, k + 1);
    OffsetOfPrefix(xs, n - 1, k);
    OffsetOfPrefix(xs, n - 1, k + 1);
    assert pre[k] == xs[k];
    if k == n - 2 {
      assert lo == |jp|;
    } else {
      JoinSeparator(pre, k);
      assert hi <= |jp|;
      assert Join(xs)[lo..hi] == jp[lo..hi];
    }
  }

  // ---------------------------------------------------------------------------
  // The message

  /** `str()` of the float `ALERT_THRESHOLD`, given in cents: the integer
      part, a point, then the cents without trailing zeros but with at least
      one digit. This agrees with Python's `str()` on the threshold, the one
      value it renders; it is not a rendering of floats in general. */
  function FloatText(c: nat): string
  {
    Price.NatText(c / 100) + "."
    + if c % 100 == 0 then "0"
      else if c % 10 == 0 then [Price.DigitChar(c / 10 % 10)]
      else [Price.DigitChar(c / 10 % 10), Price.DigitChar(c % 10)]
  }

  /** The header line of main.py:20 followed by its blank line; the threshold
      reads `1200.0`, as `str(1200.00)` prints it. */
  function Header(): (h: string)
    ensures h == "\U{1F525} **iMacs Under $1200.0 Found!**\n\n"
  {
    ThresholdText();
    "\U{1F525} **iMacs Under $" + FloatText(AlertThreshold) + " Found!**\n\n"
  }

  lemma ThresholdText()
    ensures FloatText(AlertThreshold) == "1200.0"
  {
    assert Price.NatText(1) == "1";
    assert Price.NatText(12) == "12";
    assert Price.NatText(120) == "120";
    assert Price.NatText(1200) == "1200";
  }

  /** The `content` field of the payload (main.py:18-20): the header, then
      exactly the joined matches. */
  function Content(matches: seq<string>): (r: string)
    ensures |Header()| <= |r| && r[..|Header()|] == Header()
    ensures r[|Header()|..] == Join(matches)
  {
    Header() + Join(matches)
  }

  /** The content starts with the header and holds every match in order, at
      the header's length plus the match's offset in the joined text. */
  lemma ContentCarries(matches: seq<string>, k: nat)
    requires k < |matches|
    ensures var at := |Header()| + Offset(matches, k);
      at + |matches[k]| <= |Content(matches)| && Content(matches)[at..at + |matches[k]|] == matches[k]
  {
    JoinAt(matches, k);
    PlacedAfterPrefix(Header(), Join(matches), Offset(matches, k), matches[k]);
  }

  /** A string placed in a text at `lo` is placed at `|h| + lo` once `h` is
      put in front of the text. */
  lemma PlacedAfterPrefix<T>(h: seq<T>, t: seq<T>, lo: nat, w: seq<T>)
    requires lo + |w| <= |t| && t[lo..lo + |w|] == w
    ensures |h| + lo + |w| <= |h + t| && (h + t)[|h| + lo..|h| + lo + |w|] == w
  {
    assert (h + t)[|h| + lo..|h| + lo + |w|] == t[lo..lo + |w|];
  }

  // ---------------------------------------------------------------------------
  // Dispatch

  /** What a run does about the alert. */
  datatype Dispatch =
    | Post(url: string, content: string)  // requests.post(url, json={"content": content})
    | WebhookNotSet                       // main.py:15-17
    | NothingFound                        // main.py:71-72

  /** `not DISCORD_WEBHOOK` is false: the variable is present and non-empty. */
  predicate Configured(webhook: Option<string>)
  {
    webhook.Some? && webhook.value != ""
  }

  /** send_discord_alert (main.py:14-27): it posts the message to the webhook
      exactly when the webhook is set and non-empty, and otherwise only
      reports the missing variable. */
  function SendDiscordAlert(matches: seq<string>, webhook: Option<string>): (d: Dispatch)
    ensures d != NothingFound
    ensures d.Post? <==> Configured(webhook)
    ensures Configured(webhook) ==> d == Post(webhook.value, Content(matches))
    ensures webhook == None || webhook == Some("") ==> d == WebhookNotSet
  {
    if !Configured(webhook) then WebhookNotSet else Post(webhook.value, Content(matches))
  }

  /** main.py:69-72: a post happens exactly when there is a match and the
      webhook is set; an empty match list sends nothing whatever the webhook. */
  function Decide(matches: seq<string>, webhook: Option<string>): (d: Dispatch)
    ensures d.Post? <==> matches != [] && Configured(webhook)
    ensures d == NothingFound <==> matches == []
    ensures d == WebhookNotSet <==> matches != [] && !Configured(webhook)
    ensures d.Post? ==> d == Post(webhook.value, Content(matches))
  {
    if matches == [] then NothingFound else SendDiscordAlert(matches, webhook)
  }
}
