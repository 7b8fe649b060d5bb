/** `extract_english_titles` (index.js:212-216): from each page record, keep the
    title of an English dictionary entry whose title is a real word. The regular
    expression `^[-0-9,$.]*$` is written out as a character class. */
module Titles {
  import opened Wrappers
  import opened Text
  import opened PageAssembly

  /** The marker of an English section in a page's wikitext. */
  const EnglishMarker: string := "==English=="

  /** The character class `[-0-9,$.]`. */
  predicate InNumericClass(c: char)
  {
    c == '-' || ('0' <= c <= '9') || c == ',' || c == '$' || c == '.'
  }

  /** Whether `^[-0-9,$.]*$` matches the whole title: every character is in
      the class. The empty title matches. */
  function MatchesNumeric(title: string): (b: bool)
    ensures b <==> forall k :: 0 <= k < |title| ==> InNumericClass(title[k])
  {
    title == [] || (InNumericClass(title[0]) && MatchesNumeric(title[1..]))
  }

  /** The filter: the page's title when its body contains the English marker and
      its title is not made of numeric characters alone; otherwise nothing is
      pushed. */
  function EnglishTitle(page: Page): (r: Option<string>)
    ensures r.Some? ==> r.value == page.title
    ensures r.Some? <==> (exists j :: OccursAt(page.text, EnglishMarker, j)) &&
                         (exists k :: 0 <= k < |page.title| && !InNumericClass(page.title[k]))
  {
    if IndexOf(page.text, EnglishMarker) > -1 && !MatchesNumeric(page.title) then Some(page.title)
    else None
  }

  /** The titles the stage pushes for a run of pages, in order
      (`simple_object_transform` pushes every non-null result, index.js:173-186). */
  function EnglishTitles(pages: seq<Page>): (r: seq<string>)
    ensures |r| <= |pages|
  {
    if pages == [] then []
    else
      var rest := EnglishTitles(pages[1..]);
      match EnglishTitle(pages[0])
      case Some(t) => [t] + rest
      case None => rest
  }

  /** Filtering a stream chunk by chunk gives the same titles as filtering it whole. */
  lemma {:induction false} EnglishTitlesAppend(a: seq<Page>, b: seq<Page>)
    ensures EnglishTitles(a + b) == EnglishTitles(a) + EnglishTitles(b)
  {
    if a == [] {
      assert a + b == b;
    } else {
      assert (a + b)[1..] == a[1..] + b;
      EnglishTitlesAppend(a[1..], b);
    }
  }

  /** Every title pushed is the title of an English page with a real title. */
  lemma {:induction false} EnglishTitlesSound(pages: seq<Page>, k: nat)
    requires k < |EnglishTitles(pages)|
    ensures exists j :: 0 <= j < |pages| && EnglishTitle(pages[j]) == Some(EnglishTitles(pages)[k])
    decreases |pages|
  {
    var rest := EnglishTitles(pages[1..]);
    if EnglishTitle(pages[0]).Some? && k == 0 {
      assert EnglishTitle(pages[0]) == Some(EnglishTitles(pages)[0]);
    } else {
      var k' := if EnglishTitle(pages[0]).Some? then k - 1 else k;
      assert EnglishTitles(pages)[k] == rest[k'];
      EnglishTitlesSound(pages[1..], k');
      var j :| 0 <= j < |pages[1..]| && EnglishTitle(pages[1..][j]) == Some(rest[k']);
      assert pages[1..][j] == pages[j + 1];
    }
  }

  /** Every page the filter keeps has its title pushed, in its place among the
      titles of the pages before and after it. */
  lemma {:induction false} EnglishTitlesComplete(pages: seq<Page>, j: nat)
    requires j < |pages| && EnglishTitle(pages[j]).Some?
    ensures EnglishTitles(pages) == EnglishTitles(pages[..j]) + [pages[j].title] + EnglishTitles(pages[j + 1..])
  {
    assert pages == pages[..j] + ([pages[j]] + pages[j + 1..]);
    EnglishTitlesAppend(pages[..j], [pages[j]] + pages[j + 1..]);
    EnglishTitlesAppend([pages[j]], pages[j + 1..]);
    assert ([pages[j]] + pages[j + 1..])[1..] == pages[j + 1..];
    assert EnglishTitles([pages[j]]) == [pages[j].title];
  }

  /** A worked case: an English entry titled "cat" is kept, "1,000.50" and "$5"
      and the empty title are not. */
  lemma Examples(body: string)
    requires OccursAt(body, EnglishMarker, 0)
    ensures EnglishTitle(Page("cat", body)) == Some("cat")
    ensures EnglishTitle(Page("1,000.50", body)) == None
    ensures EnglishTitle(Page("$5", body)) == None
    ensures EnglishTitle(Page("", body)) == None
  {
    assert !InNumericClass("cat"[0]);
  }
}
