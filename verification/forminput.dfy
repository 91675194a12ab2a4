/** How the add-project handler turns raw form text into ProjectCreate
    fields: the comma-separated tech stack becomes a list, and an empty
    URL becomes an absent one. */
module FormInput {
  import opened Wrappers
  import opened Text

  /** `[t.strip() for t in parts if t.strip()]`. */
  function CleanSegments(parts: seq<string>): (techs: seq<string>)
    ensures |techs| <= |parts|
    ensures forall k :: 0 <= k < |techs| ==> techs[k] != [] && Stripped(techs[k])
  {
    if parts == [] then []
    else if Strip(parts[0]) == [] then CleanSegments(parts[1..])
    else [Strip(parts[0])] + CleanSegments(parts[1..])
  }

  /** The tech list parsed from the form's `tech_stack` text: no entry is
      empty or padded, and there is at most one entry per comma-separated
      segment. */
  function ParseTechStack(text: string): (techs: seq<string>)
    ensures forall k :: 0 <= k < |techs| ==> techs[k] != [] && Stripped(techs[k])
    ensures |techs| <= Count(text, ',') + 1
  {
    CleanSegments(Split(text, ','))
  }

  lemma {:induction false} CleanSegmentsAppend(x: seq<string>, y: seq<string>)
    ensures CleanSegments(x + y) == CleanSegments(x) + CleanSegments(y)
  {
    if x == [] {
      assert x + y == y;
    } else {
      assert (x + y)[1..] == x[1..] + y;
      CleanSegmentsAppend(x[1..], y);
    }
  }

  /** Every entry of `techs` is the stripped form of some segment. */
  predicate StrippedFrom(techs: seq<string>, parts: seq<string>) {
    forall k :: 0 <= k < |techs| ==> exists j :: 0 <= j < |parts| && techs[k] == Strip(parts[j])
  }

  lemma {:induction false} CleanSegmentsFromParts(parts: seq<string>)
    ensures StrippedFrom(CleanSegments(parts), parts)
  {
    if parts != [] {
      var rest := CleanSegments(parts[1..]);
      CleanSegmentsFromParts(parts[1..]);
      var t := Strip(parts[0]);
      var techs := CleanSegments(parts);
      var skip := if t == [] then 0 else 1;
      assert techs == (if t == [] then [] else [t]) + rest;
      forall k | 0 <= k < |techs|
        ensures exists j :: 0 <= j < |parts| && techs[k] == Strip(parts[j])
      {
        if k < skip {
          assert techs[k] == Strip(parts[0]);
        } else {
          assert techs[k] == rest[k - skip];
          var j :| 0 <= j < |parts[1..]| && rest[k - skip] == Strip(parts[1..][j]);
          assert parts[1..][j] == parts[j + 1];
        }
      }
    }
  }

  /** Every segment is blank. */
  predicate AllBlank(parts: seq<string>) {
    forall k :: 0 <= k < |parts| ==> AllWhitespace(parts[k])
  }

  lemma {:induction false} CleanSegmentsEmpty(parts: seq<string>)
    ensures CleanSegments(parts) == [] <==> AllBlank(parts)
  {
    if parts != [] {
      CleanSegmentsEmpty(parts[1..]);
      StripBlank(parts[0]);
      if CleanSegments(parts) == [] {
        assert Strip(parts[0]) == [];
        forall k | 0 <= k < |parts| ensures AllWhitespace(parts[k]) {
          if k > 0 { assert parts[k] == parts[1..][k - 1]; }
        }
      }
      if forall k :: 0 <= k < |parts| ==> AllWhitespace(parts[k]) {
        assert forall k :: 0 <= k < |parts[1..]| ==> AllWhitespace(parts[1..][k]) by {
          forall k | 0 <= k < |parts[1..]| ensures AllWhitespace(parts[1..][k]) {
            assert parts[1..][k] == parts[k + 1];
          }
        }
      }
    }
  }

  /** Only separators and whitespace. */
  predicate OnlySeparatorsOrBlank(s: string, sep: char) {
    forall i :: 0 <= i < |s| ==> s[i] == sep || IsWhitespace(s[i])
  }

  lemma {:induction false} SplitAllBlank(s: string, sep: char)
    ensures AllBlank(Split(s, sep)) <==> OnlySeparatorsOrBlank(s, sep)
  {
    if s != [] {
      SplitAllBlank(s[1..], sep);
      var rest := Split(s[1..], sep);
      var parts := Split(s, sep);
      if s[0] == sep {
        assert parts == [[]] + rest;
        if OnlySeparatorsOrBlank(s, sep) {
          assert OnlySeparatorsOrBlank(s[1..], sep) by {
            forall i | 0 <= i < |s[1..]| ensures s[1..][i] == sep || IsWhitespace(s[1..][i]) {
              assert s[1..][i] == s[i + 1];
            }
          }
          forall k | 0 <= k < |parts| ensures AllWhitespace(parts[k]) {
            if k > 0 { assert parts[k] == rest[k - 1]; }
          }
        }
        if forall k :: 0 <= k < |parts| ==> AllWhitespace(parts[k]) {
          forall k | 0 <= k < |rest| ensures AllWhitespace(rest[k]) {
            assert rest[k] == parts[k + 1];
          }
          forall i | 0 <= i < |s| ensures s[i] == sep || IsWhitespace(s[i]) {
            if i > 0 { assert s[i] == s[1..][i - 1]; }
          }
        }
      } else {
        assert parts == [[s[0]] + rest[0]] + rest[1..];
        if OnlySeparatorsOrBlank(s, sep) {
          assert OnlySeparatorsOrBlank(s[1..], sep) by {
            forall i | 0 <= i < |s[1..]| ensures s[1..][i] == sep || IsWhitespace(s[1..][i]) {
              assert s[1..][i] == s[i + 1];
            }
          }
          forall k | 0 <= k < |parts| ensures AllWhitespace(parts[k]) {
            if k > 0 {
              assert parts[k] == rest[k];
            } else {
              assert AllWhitespace(rest[0]);
              forall i | 0 <= i < |parts[0]| ensures IsWhitespace(parts[0][i]) {
                if i > 0 { assert parts[0][i] == rest[0][i - 1]; }
              }
            }
          }
        }
        if forall k :: 0 <= k < |parts| ==> AllWhitespace(parts[k]) {
          assert AllWhitespace(parts[0]);
          assert IsWhitespace(parts[0][0]);
          forall k | 0 <= k < |rest| ensures AllWhitespace(rest[k]) {
            if k > 0 {
              assert rest[k] == parts[k];
            } else {
              forall i | 0 <= i < |rest[0]| ensures IsWhitespace(rest[0][i]) {
                assert rest[0][i] == parts[0][i + 1];
              }
            }
          }
          forall i | 0 <= i < |s| ensures s[i] == sep || IsWhitespace(s[i]) {
            if i > 0 { assert s[i] == s[1..][i - 1]; }
          }
        }
      }
    }
  }

  /** The tech list comes out empty exactly when the text holds nothing but
      commas and whitespace (the empty text included). */
  lemma {:induction false} ParseTechStackEmpty(text: string)
    ensures ParseTechStack(text) == [] <==> OnlySeparatorsOrBlank(text, ',')
  {
    var parts := Split(text, ',');
    assert ParseTechStack(text) == CleanSegments(parts);
    CleanSegmentsEmpty(parts);
    SplitAllBlank(text, ',');
  }

  /** Each entry of the tech list is a trimmed comma-separated segment of
      the text, and a text without blank segments keeps every one of them. */
  lemma {:induction false} ParseTechStackSegments(text: string)
    ensures StrippedFrom(ParseTechStack(text), Split(text, ','))
    ensures var parts := Split(text, ',');
      (forall k :: 0 <= k < |parts| ==> Strip(parts[k]) != []) ==>
        ParseTechStack(text) == seq(|parts|, k requires 0 <= k < |parts| => Strip(parts[k]))
  {
    var parts := Split(text, ',');
    CleanSegmentsFromParts(parts);
    if forall k :: 0 <= k < |parts| ==> Strip(parts[k]) != [] {
      CleanSegmentsNoBlank(parts);
    }
  }

  /** Without blank segments, the comprehension keeps every segment, in
      order, trimmed. */
  lemma {:induction false} CleanSegmentsNoBlank(parts: seq<string>)
    requires forall k :: 0 <= k < |parts| ==> Strip(parts[k]) != []
    ensures CleanSegments(parts) == seq(|parts|, k requires 0 <= k < |parts| => Strip(parts[k]))
  {
    if parts != [] {
      CleanSegmentsNoBlank(parts[1..]);
    }
  }

  /** Joining stripped, comma-free, non-empty entries and parsing them back
      yields the same list: the parse inverts `", ".join`-style input. */
  lemma {:induction false} ParseJoin(techs: seq<string>)
    requires |techs| >= 1
    requires forall k :: 0 <= k < |techs| ==> techs[k] != [] && Stripped(techs[k]) && ',' !in techs[k]
    ensures ParseTechStack(Join(techs, ',')) == techs
  {
    SplitJoin(techs, ',');
    CleanSegmentsOfStripped(techs);
  }

  lemma {:induction false} CleanSegmentsOfStripped(techs: seq<string>)
    requires forall k :: 0 <= k < |techs| ==> techs[k] != [] && Stripped(techs[k])
    ensures CleanSegments(techs) == techs
  {
    if techs != [] {
      assert techs[0] == [] + techs[0] + [];
      StripOfPadded([], techs[0], []);
      CleanSegmentsOfStripped(techs[1..]);
      assert CleanSegments(techs) == [techs[0]] + techs[1..];
    }
  }

  /** What the scan knows after reading `text[..i]`: the current segment
      starts at `start` and has no comma yet, and the entries collected so
      far followed by the parse of the unread segments give the full parse. */
  predicate ScanInvariant(text: string, start: nat, i: nat, techs: seq<string>) {
    && start <= i <= |text|
    && (forall j :: start <= j < i ==> text[j] != ',')
    && techs + CleanSegments(Split(text[start..], ',')) == ParseTechStack(text)
  }

  /** The entry a segment contributes, if any. */
  function Entry(segment: string): (e: seq<string>)
    ensures e == CleanSegments([segment])
  {
    assert [segment][1..] == [];
    if Strip(segment) == [] then [] else [Strip(segment)]
  }

  /** Before reading anything, the whole text is unread. */
  lemma ScanStart(text: string)
    ensures ScanInvariant(text, 0, 0, [])
  {
  }

  /** At a comma, the current segment is finished. */
  lemma {:induction false} ScanComma(text: string, start: nat, i: nat, techs: seq<string>)
    requires ScanInvariant(text, start, i, techs)
    requires i < |text| && text[i] == ','
    ensures ScanInvariant(text, i + 1, i + 1, techs + Entry(text[start..i]))
  {
    var segment := text[start..i];
    assert ',' !in segment by {
      forall j | 0 <= j < |segment| ensures segment[j] != ',' { assert segment[j] == text[start + j]; }
    }
    assert text[start..] == segment + [','] + text[i + 1..];
    SplitAfterSegment(segment, text[i + 1..], ',');
    CleanSegmentsAppend([segment], Split(text[i + 1..], ','));
  }

  /** Any other character extends the current segment. */
  lemma ScanOther(text: string, start: nat, i: nat, techs: seq<string>)
    requires ScanInvariant(text, start, i, techs)
    requires i < |text| && text[i] != ','
    ensures ScanInvariant(text, start, i + 1, techs)
  {
  }

  /** At the end of the text, the current segment is the last one. */
  lemma {:induction false} ScanEnd(text: string, start: nat, techs: seq<string>)
    requires ScanInvariant(text, start, |text|, techs)
    ensures techs + Entry(text[start..]) == ParseTechStack(text)
  {
    assert ',' !in text[start..] by {
      forall j | 0 <= j < |text[start..]| ensures text[start..][j] != ',' { assert text[start..][j] == text[start + j]; }
    }
    SplitSepFree(text[start..], ',');
  }

  /** A single left-to-right pass over the text, cutting a segment at each
      comma, as a hand-written parser would; it yields the same list as the
      comprehension. */
  method ScanTechStack(text: string) returns (techs: seq<string>)
    ensures techs == ParseTechStack(text)
  {
    techs := [];
    var start := 0;
    var i := 0;
    ScanStart(text);
    while i < |text|
      invariant ScanInvariant(text, start, i, techs)
    {
      if text[i] == ',' {
        var segment := text[start..i];
        ScanComma(text, start, i, techs);
        var t := Strip(segment);
        if t != [] {
          assert Entry(segment) == [t];
          techs := techs + [t];
        } else {
          assert techs + Entry(segment) == techs;
        }
        start := i + 1;
      } else {
        ScanOther(text, start, i, techs);
      }
      i := i + 1;
    }
    var segment := text[start..];
    ScanEnd(text, start, techs);
    var t := Strip(segment);
    if t != [] {
      assert Entry(segment) == [t];
      techs := techs + [t];
    } else {
      assert techs + Entry(segment) == techs;
    }
  }

  /** `url if url else None`: the empty string means "no URL". */
  function OptionalUrl(url: string): (r: Option<string>)
    ensures r.None? <==> url == []
    ensures r.Some? ==> r.value == url
  {
    if url == [] then None else Some(url)
  }

  /** What the form would have to send to produce a stored URL. */
  function UrlText(url: Option<string>): string {
    url.GetOr([])
  }

  /** Absent-or-non-empty URLs round-trip through their form text, and
      every form text round-trips through the stored value. */
  lemma OptionalUrlRoundTrip(text: string, url: Option<string>)
    ensures UrlText(OptionalUrl(text)) == text
    ensures (url.None? || url.value != []) ==> OptionalUrl(UrlText(url)) == url
  {
  }
}
