/** `update_dashboard.py`: a one-off script that replaces the function
    `renderQuickViewCards` of the dashboard script by a new text. The file
    is read and written whole, so its content is a parameter here and the
    rewritten content the outcome. */
module DashboardSplice {
  import opened Basics
  import Text

  const StartMarker: string := "function renderQuickViewCards(data) {"
  const EndMarker: string := "function renderAnalytics() {"

  /** `pat` occurs in `s` at position `i`: `s[i:i + len(pat)] == pat`. */
  predicate At(s: string, pat: string, i: int)
  {
    0 <= i && i + |pat| <= |s| && forall j :: 0 <= j < |pat| ==> s[i + j] == pat[j]
  }

  /** `s.find(pat, from)`: the first occurrence at or after `from`. */
  function Find(s: string, pat: string, from: nat): (r: Option<nat>)
    decreases |s| - from
    ensures r.Some? ==> from <= r.value && At(s, pat, r.value)
    ensures r.Some? ==> forall i :: from <= i < r.value ==> !At(s, pat, i)
    ensures r.None? ==> forall i :: from <= i ==> !At(s, pat, i)
  {
    if from + |pat| > |s| then None
    else if At(s, pat, from) then Some(from)
    else Find(s, pat, from + 1)
  }

  /** An occurrence with none before it (from `from` on) is what `find`
      returns. */
  lemma {:induction false} FindFirst(s: string, pat: string, from: nat, k: nat)
    requires from <= k && At(s, pat, k)
    requires forall i :: from <= i < k ==> !At(s, pat, i)
    ensures Find(s, pat, from) == Some(k)
    decreases k - from
  {
    if from < k {
      assert !At(s, pat, from);
      FindFirst(s, pat, from + 1, k);
    }
  }

  /** The script's outcome: exit status 1 with one of two messages, or the
      new file content. */
  datatype Outcome = StartNotFound | EndNotFound | Replaced(content: string)

  /** The splice between two markers: the text from the first start marker
      up to the first end marker after it becomes the replacement and a blank
      line. The script uses `StartMarker` and `EndMarker`. */
  function Spliced(content: string, replacement: string, startMarker: string, endMarker: string): Outcome
  {
    match Find(content, startMarker, 0)
      case None => StartNotFound
      case Some(s) =>
        match Find(content, endMarker, s)
          case None => EndNotFound
          case Some(e) => Replaced(content[..s] + replacement + "\n\n" + content[e..])
  }

  /** The backward scan over white space before the next function: it stops
      at the last character before `next` that is not white space, or at
      `start`. Its result is not used. */
  method LastContentBefore(content: string, start: nat, next: nat) returns (scan: int)
    requires start <= next <= |content|
    ensures start == next ==> scan == next - 1
    ensures start < next ==> start <= scan < next && (scan == start || !Text.PySpace(content[scan]))
    ensures forall j :: scan < j < next ==> Text.PySpace(content[j])
  {
    scan := next - 1;
    while scan > start && Text.PySpace(content[scan])
      invariant start <= next && (start < next ==> start <= scan < next) && (start == next ==> scan == next - 1)
      invariant forall j :: scan < j < next ==> Text.PySpace(content[j])
    {
      scan := scan - 1;
    }
  }

  /** The script: find the start marker (missing: exit 1 before any write),
      find the end marker from there (missing: exit 1), run the unused scan,
      and write the spliced content. */
  method UpdateDashboard(content: string, replacement: string) returns (outcome: Outcome)
    ensures outcome == Spliced(content, replacement, StartMarker, EndMarker)
  {
    var startPos := Find(content, StartMarker, 0);
    if startPos.None? {
      return StartNotFound;
    }
    var nextFuncPos := Find(content, EndMarker, startPos.value);
    if nextFuncPos.None? {
      return EndNotFound;
    }
    var _ := LastContentBefore(content, startPos.value, nextFuncPos.value);
    var preContent := content[..startPos.value];
    var postContent := content[nextFuncPos.value..];
    outcome := Replaced(preContent + replacement + "\n\n" + postContent);
  }

  /** The outcome is an error exactly when a marker is missing; otherwise
      everything before the first start marker and everything from the
      first end marker after it on is kept unchanged, around the replacement
      and a blank line. */
  lemma SplicedFacts(content: string, replacement: string, sm: string, em: string)
    ensures Spliced(content, replacement, sm, em) == StartNotFound <==> forall i :: !At(content, sm, i)
    ensures Spliced(content, replacement, sm, em) == EndNotFound <==>
      Find(content, sm, 0).Some? && forall i :: Find(content, sm, 0).value <= i ==> !At(content, em, i)
    ensures Spliced(content, replacement, sm, em).Replaced? ==>
      var s := Find(content, sm, 0).value;
      var e := Find(content, em, s).value;
      var out := Spliced(content, replacement, sm, em).content;
      s <= e && At(content, sm, s) && At(content, em, e) &&
      |out| == s + |replacement| + 2 + (|content| - e) &&
      out[..s] == content[..s] &&
      out[s..s + |replacement|] == replacement &&
      out[s + |replacement| + 2..] == content[e..]
  {
    if Find(content, sm, 0).None? {
    } else if Spliced(content, replacement, sm, em) == StartNotFound {
      assert false;
    } else {
      var s := Find(content, sm, 0).value;
      if Find(content, em, s).Some? {
        var e := Find(content, em, s).value;
        var out := content[..s] + replacement + "\n\n" + content[e..];
        assert out[s + |replacement| + 2..] == content[e..];
      }
    }
    assert (forall i :: !At(content, sm, i)) ==> Find(content, sm, 0).None? by {
      if Find(content, sm, 0).Some? {
        assert At(content, sm, Find(content, sm, 0).value);
      }
    }
  }

  /** The layout of a spliced text, character by character. */
  lemma Layout(pre: string, rep: string, post: string)
    ensures |pre + rep + "\n\n" + post| == |pre| + |rep| + 2 + |post|
    ensures forall j :: 0 <= j < |pre| ==> (pre + rep + "\n\n" + post)[j] == pre[j]
    ensures forall j :: 0 <= j < |rep| ==> (pre + rep + "\n\n" + post)[|pre| + j] == rep[j]
    ensures (pre + rep + "\n\n" + post)[|pre| + |rep|] == '\n'
    ensures (pre + rep + "\n\n" + post)[|pre| + |rep| + 1] == '\n'
    ensures forall j :: 0 <= j < |post| ==> (pre + rep + "\n\n" + post)[|pre| + |rep| + 2 + j] == post[j]
    ensures (pre + rep + "\n\n" + post)[..|pre|] == pre
    ensures (pre + rep + "\n\n" + post)[|pre| + |rep| + 2..] == post
  {
  }

  /** A text that agrees with `content` up to the end of the first
      occurrence of `pat` has its first occurrence there too. */
  lemma FirstStays(content: string, out: string, pat: string, s: nat)
    requires Find(content, pat, 0) == Some(s)
    requires s + |pat| <= |out|
    requires forall j :: 0 <= j < s + |pat| ==> out[j] == content[j]
    ensures Find(out, pat, 0) == Some(s)
  {
    forall i | 0 <= i < s ensures !At(out, pat, i) {
      assert !At(content, pat, i);
    }
    FindFirst(out, pat, 0, s);
  }

  /** When `rep` sits at `s` followed by a blank line and `pat` occurs just
      after, that is the first occurrence from `s` on, since `rep` holds
      none and `pat` has no line feed. */
  lemma FirstAfterBlankLine(out: string, rep: string, pat: string, s: nat)
    requires s + |rep| + 2 <= |out|
    requires forall j :: 0 <= j < |rep| ==> out[s + j] == rep[j]
    requires out[s + |rep|] == '\n' && out[s + |rep| + 1] == '\n'
    requires At(out, pat, s + |rep| + 2) && '\n' !in pat
    requires forall i :: !At(rep, pat, i)
    ensures Find(out, pat, s) == Some(s + |rep| + 2)
  {
    var t := s + |rep| + 2;
    var m := |pat|;
    assert !At(rep, pat, 0);
    forall i | s <= i < t ensures !At(out, pat, i) {
      if i + m <= s + |rep| {
        assert !At(rep, pat, i - s);
      } else {
        var j := if i <= s + |rep| then s + |rep| - i else 0;
        assert out[i + j] == '\n';
        assert pat[j] != '\n' by {
          assert pat[j] in pat;
        }
      }
    }
    FindFirst(out, pat, s, t);
  }

  /** The output agrees with the input up to the end of the start marker. */
  lemma PrefixAgrees(content: string, replacement: string, post: string, sm: string, s: nat)
    requires At(content, sm, s) && Text.StartsWith(replacement, sm)
    ensures forall j :: 0 <= j < s + |sm| ==> (content[..s] + replacement + "\n\n" + post)[j] == content[j]
  {
    var out := content[..s] + replacement + "\n\n" + post;
    Layout(content[..s], replacement, post);
    forall j | 0 <= j < s + |sm| ensures out[j] == content[j] {
      if j >= s {
        assert replacement[..|sm|][j - s] == replacement[j - s];
        assert content[s + (j - s)] == sm[j - s];
      }
    }
  }

  /** The kept suffix opens with the end marker. */
  lemma SuffixOpens(content: string, pre: string, replacement: string, em: string, e: nat)
    requires At(content, em, e)
    ensures At(pre + replacement + "\n\n" + content[e..], em, |pre| + |replacement| + 2)
  {
    var out := pre + replacement + "\n\n" + content[e..];
    var t := |pre| + |replacement| + 2;
    Layout(pre, replacement, content[e..]);
    forall j | 0 <= j < |em| ensures out[t + j] == em[j] {
      assert content[e + j] == em[j];
      assert content[e..][j] == content[e + j];
    }
  }

  /** Running the splice on its own output rewrites it to the same content
      when the replacement starts with the start marker and holds no end
      marker, and the end marker has no line feed. */
  lemma SpliceIdempotent(content: string, replacement: string, sm: string, em: string)
    requires Text.StartsWith(replacement, sm) && '\n' !in em
    requires forall i :: !At(replacement, em, i)
    ensures Spliced(content, replacement, sm, em).Replaced? ==>
      Spliced(Spliced(content, replacement, sm, em).content, replacement, sm, em) == Spliced(content, replacement, sm, em)
  {
    if Spliced(content, replacement, sm, em).Replaced? {
      var s := Find(content, sm, 0).value;
      var e := Find(content, em, s).value;
      var pre, post := content[..s], content[e..];
      var out := pre + replacement + "\n\n" + post;
      Layout(pre, replacement, post);
      PrefixAgrees(content, replacement, post, sm, s);
      FirstStays(content, out, sm, s);
      SuffixOpens(content, pre, replacement, em, e);
      assert |pre| == s;
      assert s + |replacement| + 2 <= |out|;
      assert forall j :: 0 <= j < |replacement| ==> out[s + j] == replacement[j];
      assert out[s + |replacement|] == '\n' && out[s + |replacement| + 1] == '\n';
      assert At(out, em, s + |replacement| + 2);
      FirstAfterBlankLine(out, replacement, em, s);
    }
  }

  /** The script's end marker is a one-line text. */
  lemma MarkerFacts()
    ensures '\n' !in EndMarker
  {
  }

  /** The script is idempotent: a second run on what it wrote writes the same
      file again. */
  lemma UpdateTwice(content: string, replacement: string)
    requires Text.StartsWith(replacement, StartMarker)
    requires forall i :: !At(replacement, EndMarker, i)
    ensures Spliced(content, replacement, StartMarker, EndMarker).Replaced? ==>
      var once := Spliced(content, replacement, StartMarker, EndMarker).content;
      Spliced(once, replacement, StartMarker, EndMarker) == Spliced(content, replacement, StartMarker, EndMarker)
  {
    MarkerFacts();
    SpliceIdempotent(content, replacement, StartMarker, EndMarker);
  }
}
