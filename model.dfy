/**
 * The records and XML node names the downloader works with
 * (`BingImage` and `XMLData.Nodes`), and the element view of an XML node.
 */
module Model {

  datatype Option<T> = None | Some(value: T)

  /** An image to download, as read from the archive feed or from the failed-downloads ledger. */
  datatype BingImage = BingImage(imageUrl: string, imageDescription: string)

  /**
   * An XML element seen through its child elements: each child name (compared
   * case-sensitively, as XML names are) maps to the text of the first child
   * with that name.
   */
  type Element = map<string, string>

  // Node of the progress file.
  const LastDownloadedDate := "LastDownloadedDate"

  // Nodes of the failed-downloads ledger.
  const FailedDownloads := "FailedDownloads"
  const Image := "Image"
  const Url := "URL"
  const Description := "Description"

  // Nodes of the archive feed.
  const ImageElement := "image"
  const ImageUrl := "url"
  const ImageDescription := "copyright"

  /** `element.Element(name)`: the text of the named child, or None where the source gets null. */
  function Child(e: Element, name: string): Option<string>
  {
    if name in e then Some(e[name]) else None
  }

  /** The `Image` node the ledger writers build for a record: a `URL` child and a `Description` child. */
  function ImageNode(img: BingImage): (e: Element)
    ensures e.Keys == {Url, Description}
    ensures Child(e, Url) == Some(img.imageUrl) && Child(e, Description) == Some(img.imageDescription)
  {
    map[Url := img.imageUrl, Description := img.imageDescription]
  }

  /** The `Image` nodes for a list of records, in list order. */
  function ImageNodes(imgs: seq<BingImage>): (es: seq<Element>)
    ensures |es| == |imgs|
    ensures forall i :: 0 <= i < |es| ==> es[i] == ImageNode(imgs[i])
  {
    if imgs == [] then [] else [ImageNode(imgs[0])] + ImageNodes(imgs[1..])
  }

  /** Writing one more record appends its node after the others. */
  lemma ImageNodesSnoc(imgs: seq<BingImage>, img: BingImage)
    ensures ImageNodes(imgs + [img]) == ImageNodes(imgs) + [ImageNode(img)]
  {
    var l, r := ImageNodes(imgs + [img]), ImageNodes(imgs) + [ImageNode(img)];
    assert |l| == |r|;
    forall i | 0 <= i < |l| ensures l[i] == r[i] {
      assert i < |imgs| ==> (imgs + [img])[i] == imgs[i];
    }
  }

  /** The nodes of two lists of records are the nodes of the first list, then those of the second. */
  lemma ImageNodesAppend(a: seq<BingImage>, b: seq<BingImage>)
    ensures ImageNodes(a + b) == ImageNodes(a) + ImageNodes(b)
  {
    var l, r := ImageNodes(a + b), ImageNodes(a) + ImageNodes(b);
    assert |l| == |r|;
    forall i | 0 <= i < |l| ensures l[i] == r[i] {
      assert (a + b)[i] == if i < |a| then a[i] else b[i - |a|];
    }
  }

  /** Every node of the ledger has exactly the children the ledger writers give it. */
  predicate WrittenByProgram(es: seq<Element>)
  {
    forall i :: 0 <= i < |es| ==> es[i].Keys == {Url, Description}
  }

  /** The feed's child names are not the ledger's: XML names are case-sensitive. */
  lemma FeedNamesAreNotLedgerNames()
    ensures ImageUrl != Url && ImageDescription != Description
  {
    assert ImageUrl[0] != Url[0];
  }
}
