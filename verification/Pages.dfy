/** The page map of a document. */
module Pages {
  import opened Basics
  import opened Text

  datatype Page = Page(number: int, text: string)

  ghost predicate Increasing(pages: seq<Page>) {
    forall i, j | 0 <= i < j < |pages| :: pages[i].number < pages[j].number
  }

  /** A dictionary from page number to text, as its items in page order. */
  type PageMap = p: seq<Page> | Increasing(p) witness []

  /** `any(text.strip() for text in pages.values())`. */
  predicate HasText(pages: seq<Page>) {
    exists i | 0 <= i < |pages| :: Strip(pages[i].text, IsSpace) != []
  }

  /** Some page has a character that is no white space. */
  lemma HasTextIff(pages: seq<Page>)
    ensures HasText(pages) <==>
            exists i, k | 0 <= i < |pages| && 0 <= k < |pages[i].text| :: !IsSpace(pages[i].text[k])
  {
    forall i | 0 <= i < |pages|
      ensures Strip(pages[i].text, IsSpace) != [] <==>
              exists k | 0 <= k < |pages[i].text| :: !IsSpace(pages[i].text[k])
    {
      var from, to := StripRange(pages[i].text, IsSpace);
    }
  }

  function TextOf(pages: seq<Page>, number: int): Option<string> {
    if pages == [] then None
    else if pages[0].number == number then Some(pages[0].text)
    else TextOf(pages[1..], number)
  }

  lemma {:induction false} TextOfPage(pages: PageMap, i: nat)
    requires i < |pages|
    ensures TextOf(pages, pages[i].number) == Some(pages[i].text)
  {
    if i > 0 {
      TextOfPage(pages[1..], i - 1);
    }
  }

  lemma {:induction false} TextOfSome(pages: seq<Page>, number: int)
    ensures TextOf(pages, number).Some? ==>
              exists i | 0 <= i < |pages| :: pages[i] == Page(number, TextOf(pages, number).value)
    ensures TextOf(pages, number).None? ==> forall i | 0 <= i < |pages| :: pages[i].number != number
  {
    if pages != [] {
      TextOfSome(pages[1..], number);
      if i :| 0 <= i < |pages[1..]| && TextOf(pages[1..], number).Some?
              && pages[1..][i] == Page(number, TextOf(pages[1..], number).value)
      {
        assert pages[i + 1] == pages[1..][i];
      }
    }
  }
}
