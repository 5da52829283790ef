/**
 * The thread sidebar of the browser: three sections (subscribed, top, popular)
 * of at most ten links each, with subscriber counts padded to two digits.
 */
module Sidebar {
  import opened Wrappers
  import opened JsValues
  import opened Numbers

  /** One thread as the `/api/threads` answer lists it. */
  datatype Thread = Thread(id: string, name: string, logo: Option<string>, subscriberCount: int)

  /** The answer: the three lists, in the order the server chose. */
  datatype SidebarData = SidebarData(subscribed: seq<Thread>, all: seq<Thread>, popular: seq<Thread>)

  /** One drawn link: where it goes, its React key, its name and its count text. */
  datatype Entry = Entry(link: string, key: string, name: string, count: string)

  /** What the sidebar draws; the subscribed section is absent when the user follows nothing. */
  datatype View = Loading | Failed | Sections(subscribed: Option<seq<Entry>>, top: seq<Entry>, popular: seq<Entry>)

  /** The count text: the number as is above 9, otherwise with a leading "0". */
  function PadCount(n: int): (r: string)
    ensures n > 9 ==> r == IntToString(n)
    ensures n <= 9 ==> r == "0" + IntToString(n)
  {
    if n > 9 then IntToString(n) else "0" + IntToString(n)
  }

  /** For counts 0..99 the text is two digits and reads back as the count. */
  lemma PadCountTwoDigits(n: int)
    requires 0 <= n <= 99
    ensures |PadCount(n)| == 2
    ensures forall i :: 0 <= i < 2 ==> IsDigit(PadCount(n)[i])
    ensures ParseInt(PadCount(n)) == Some(n)
  {
    if n > 9 {
      assert NatToString(n) == NatToString(n / 10) + [DigitChar(n % 10)];
      ParseIntOfIntToString(n);
    } else {
      var s := PadCount(n);
      assert s == ['0', DigitChar(n)];
      assert LeadingWhitespace(s) == 0;
      assert s[0..] == s;
      DigitRunAll(s);
      assert s[..2] == s;
      assert s[..1] == ['0'];
      assert ValueIn(s[..1], 10) == 0 by {
        assert ['0'][..0] == [];
      }
    }
  }

  /** `thread.id || thread.name`. */
  function Key(t: Thread): (r: string)
    ensures t.id != "" ==> r == t.id
    ensures t.id == "" ==> r == t.name
  {
    OrDefault(Some(t.id), t.name)
  }

  function EntryOf(t: Thread): Entry
  {
    Entry("/" + t.name, Key(t), t.name, PadCount(t.subscriberCount))
  }

  function Min(a: int, b: int): int { if a <= b then a else b }

  /** `SideBarComponent`: the first ten threads of the list, in order; no list draws nothing. */
  function Section(threadList: Option<seq<Thread>>): (r: seq<Entry>)
    ensures threadList.None? ==> r == []
    ensures threadList.Some? ==> |r| == Min(10, |threadList.value|)
    ensures threadList.Some? ==> forall k :: 0 <= k < |r| ==>
      r[k].link == "/" + threadList.value[k].name && r[k].name == threadList.value[k].name
      && r[k].key == Key(threadList.value[k]) && r[k].count == PadCount(threadList.value[k].subscriberCount)
  {
    match threadList
    case None => []
    case Some(ts) =>
      var shown := ts[..Min(10, |ts|)];
      seq(|shown|, k requires 0 <= k < |shown| => EntryOf(shown[k]))
  }

  /**
   * The sidebar for the state of its query: loading first, then an error or a
   * missing answer; otherwise the subscribed section only when its list is
   * non-empty, and the top and popular sections always.
   */
  function SidebarView(isLoading: bool, isError: bool, data: Option<SidebarData>): (v: View)
    ensures isLoading ==> v == Loading
    ensures !isLoading && (isError || data.None?) ==> v == Failed
    ensures v.Sections? <==> !isLoading && !isError && data.Some?
    ensures v.Sections? ==> (v.subscribed.Some? <==> |data.value.subscribed| != 0)
    ensures v.Sections? && v.subscribed.Some? ==> v.subscribed.value == Section(Some(data.value.subscribed))
    ensures v.Sections? ==> v.top == Section(Some(data.value.all)) && v.popular == Section(Some(data.value.popular))
  {
    if isLoading then Loading
    else if isError || data.None? then Failed
    else
      var d := data.value;
      Sections(if |d.subscribed| != 0 then Some(Section(Some(d.subscribed))) else None,
               Section(Some(d.all)), Section(Some(d.popular)))
  }

  /** Every section of a drawn sidebar holds at most ten links, each to a listed thread. */
  lemma SectionsBounded(d: SidebarData, t: Thread)
    ensures var v := SidebarView(false, false, Some(d));
      |v.top| <= 10 && |v.popular| <= 10 && (v.subscribed.Some? ==> |v.subscribed.value| <= 10)
    ensures t in d.all[..Min(10, |d.all|)] ==> EntryOf(t) in SidebarView(false, false, Some(d)).top
  {
    var v := SidebarView(false, false, Some(d));
    if t in d.all[..Min(10, |d.all|)] {
      var k :| 0 <= k < Min(10, |d.all|) && d.all[k] == t;
      assert v.top[k] == EntryOf(t);
    }
  }
}
