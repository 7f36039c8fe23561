/** The daily-shares list: loading and error states, the first three
    shares with a "show more" box, long contents cut at 300 characters with
    a per-share expand toggle, and a "new" badge on the most recent share. */
module DailyShares {
  import opened Common

  datatype Share = Share(id: Id, content: string)

  const MaxLength := 300
  const Preview := 3
  const Ellipsis := "..."
  const ShowLessLabel := "Daha az göster"
  const ShowMoreLabel := "Devamını gör"

  /** `toggleExpanded`: the one share flips, every other keeps its state. */
  function ToggleExpanded(expanded: set<Id>, id: Id): (r: set<Id>)
    ensures id in r <==> id !in expanded
    ensures forall x :: x != id ==> (x in r <==> x in expanded)
  {
    if id in expanded then expanded - {id} else expanded + {id}
  }

  /** Toggling twice restores the set. */
  lemma ToggleTwice(expanded: set<Id>, id: Id)
    ensures ToggleExpanded(ToggleExpanded(expanded, id), id) == expanded
  {
  }

  predicate NeedsTruncation(content: string) {
    |content| > MaxLength
  }

  /** `truncateContent`: a long, collapsed share shows its first 300
      characters and an ellipsis; everything else shows in full. */
  function TruncateContent(content: string, id: Id, expanded: set<Id>): (r: string)
    ensures !NeedsTruncation(content) || id in expanded ==> r == content
    ensures NeedsTruncation(content) && id !in expanded ==>
              |r| == MaxLength + |Ellipsis| && r[..MaxLength] == content[..MaxLength]
              && r[MaxLength..] == Ellipsis
  {
    if |content| <= MaxLength then content
    else if id in expanded then content
    else content[..MaxLength] + Ellipsis
  }

  /** A collapsed share never shows more than 303 characters, and what it
      shows begins like the content. */
  lemma TruncatedIsShortPrefix(content: string, id: Id, expanded: set<Id>)
    requires id !in expanded
    ensures |TruncateContent(content, id, expanded)| <= MaxLength + |Ellipsis|
    ensures var r := TruncateContent(content, id, expanded);
            NeedsTruncation(content) ==> content[..MaxLength] <= r
  {
  }

  /** One listed share. */
  datatype Item = Item(share: Share, text: string, isLatest: bool, toggle: Option<string>)

  datatype View =
    | Loading
    | LoadFailed
    | NoShares
    | Listed(items: seq<Item>, hasMore: bool, canShowLess: bool)

  function ItemFor(s: Share, latestId: Id, expanded: set<Id>): (it: Item)
    ensures it.share == s
    ensures it.isLatest <==> s.id == latestId
    ensures it.toggle.Some? <==> NeedsTruncation(s.content)
    ensures it.toggle == Some(ShowLessLabel) <==> NeedsTruncation(s.content) && s.id in expanded
    ensures it.text == TruncateContent(s.content, s.id, expanded)
  {
    Item(s, TruncateContent(s.content, s.id, expanded), s.id == latestId,
         if !NeedsTruncation(s.content) then None
         else if s.id in expanded then Some(ShowLessLabel) else Some(ShowMoreLabel))
  }

  /** The component for the hook's state (`shares`, `loading`, `failed`)
      and its own (`showAll`, `expanded`). */
  function Render(shares: seq<Share>, loading: bool, failed: bool, showAll: bool, expanded: set<Id>): (v: View)
    ensures loading ==> v == Loading
    ensures !loading && failed ==> v == LoadFailed
    ensures !loading && !failed && |shares| == 0 ==> v == NoShares
    ensures v.Listed? <==> !loading && !failed && |shares| > 0
    ensures v.Listed? ==>
              && |v.items| == (if showAll || |shares| <= Preview then |shares| else Preview)
              && (forall i :: 0 <= i < |v.items| ==> v.items[i] == ItemFor(shares[i], shares[0].id, expanded))
              && (v.hasMore <==> |shares| > Preview && !showAll)
              && (v.canShowLess <==> |shares| > Preview && showAll)
  {
    if loading then Loading
    else if failed then LoadFailed
    else if |shares| == 0 then NoShares
    else
      var visible := if showAll then shares else shares[..if |shares| < Preview then |shares| else Preview];
      Listed(seq(|visible|, i requires 0 <= i < |visible| => ItemFor(visible[i], shares[0].id, expanded)),
             |shares| > Preview && !showAll,
             |shares| > Preview && showAll)
  }

  /** "Show more" and "show less" never appear together, and one of them
      appears exactly when there are more than three shares. */
  lemma OneBoxAtMost(shares: seq<Share>, showAll: bool, expanded: set<Id>)
    requires |shares| > 0
    ensures var v := Render(shares, false, false, showAll, expanded);
            !(v.hasMore && v.canShowLess) && (v.hasMore || v.canShowLess <==> |shares| > Preview)
  {
  }

  /** With distinct ids only the first share carries the "new" badge. */
  lemma OnlyFirstIsLatest(shares: seq<Share>, showAll: bool, expanded: set<Id>, i: int)
    requires forall a, b :: 0 <= a < b < |shares| ==> shares[a].id != shares[b].id
    requires |shares| > 0
    requires 0 <= i < |Render(shares, false, false, showAll, expanded).items|
    ensures Render(shares, false, false, showAll, expanded).items[i].isLatest <==> i == 0
  {
    if i != 0 {
      assert shares[0].id != shares[i].id;
    }
  }
}
