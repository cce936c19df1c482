/**
 * The personal knowledge bases: a list of bases, each with items whose
 * content (a data URL) lives in a separate content store, the set of active
 * bases, and the context that the active bases add to a chat message.
 */
module Pkb {
  import opened Common
  import opened Text
  import opened QuizTypes
  import opened Parts

  datatype ItemKind = FileItem | ImageItem

  datatype PKBItem = PKBItem(id: string, description: string, kind: ItemKind, fileName: string, fileType: string)

  datatype PKB = PKB(id: string, name: string, description: string, items: seq<PKBItem>, createdAt: int)

  datatype PkbNotice = NameEmpty | MissingFile | ReadFailed

  // ---------------------------------------------------------------------------
  // Lists of bases

  /** The index of the first base with this id (`find`), or -1. */
  function FindBase(bs: seq<PKB>, id: string): (r: int)
    ensures -1 <= r < |bs|
    ensures r == -1 <==> forall k :: 0 <= k < |bs| ==> bs[k].id != id
    ensures r >= 0 ==> bs[r].id == id && forall k :: 0 <= k < r ==> bs[k].id != id
  {
    if bs == [] then -1
    else if bs[0].id == id then 0
    else
      var r := FindBase(bs[1..], id);
      assert forall k :: 1 <= k < |bs| ==> bs[k] == bs[1..][k - 1];
      if r == -1 then -1 else r + 1
  }

  lemma BaseFoundAt(bs: seq<PKB>, k: nat, id: string)
    requires k < |bs| && bs[k].id == id
    ensures FindBase(bs, id) >= 0
  {
  }

  /** Every id of `ids` names a base of `bs`. */
  predicate AllFound(bs: seq<PKB>, ids: seq<string>) {
    forall k :: 0 <= k < |ids| ==> FindBase(bs, ids[k]) >= 0
  }

  /** Changing a base without changing its id keeps every id found. */
  lemma ReplaceKeepsFound(bs: seq<PKB>, ids: seq<string>, i: nat, b: PKB)
    requires AllFound(bs, ids) && i < |bs| && b.id == bs[i].id
    ensures AllFound(bs[i := b], ids)
  {
    forall k | 0 <= k < |ids| ensures FindBase(bs[i := b], ids[k]) >= 0 {
      var m := FindBase(bs, ids[k]);
      BaseFoundAt(bs[i := b], m, ids[k]);
    }
  }

  /** Adding a base in front keeps every id found. */
  lemma PrependKeepsFound(bs: seq<PKB>, ids: seq<string>, b: PKB)
    requires AllFound(bs, ids)
    ensures AllFound([b] + bs, ids)
  {
    forall k | 0 <= k < |ids| ensures FindBase([b] + bs, ids[k]) >= 0 {
      var m := FindBase(bs, ids[k]);
      assert ([b] + bs)[m + 1] == bs[m];
      BaseFoundAt([b] + bs, m + 1, ids[k]);
    }
  }

  /** Removing a base and its id together keeps every other id found. */
  lemma RemovalKeepsFound(bs: seq<PKB>, ids: seq<string>, id: string)
    requires AllFound(bs, ids)
    ensures AllFound(WithoutBase(bs, id), WithoutId(ids, id))
  {
    var remaining, rest := WithoutBase(bs, id), WithoutId(ids, id);
    forall k | 0 <= k < |rest| ensures FindBase(remaining, rest[k]) >= 0 {
      assert rest[k] in ids;
      var m :| 0 <= m < |ids| && ids[m] == rest[k];
      var b := bs[FindBase(bs, ids[m])];
      assert b in remaining;
      var n :| 0 <= n < |remaining| && remaining[n] == b;
      BaseFoundAt(remaining, n, rest[k]);
    }
  }

  predicate UniqueIds(bs: seq<PKB>) {
    forall i, j :: 0 <= i < j < |bs| ==> bs[i].id != bs[j].id
  }

  /** `getActivePKBs`: the bases whose id is active, in stored order. */
  function ActiveBases(bs: seq<PKB>, activeIds: seq<string>): (r: seq<PKB>)
    ensures forall b :: b in r <==> b in bs && b.id in activeIds
    ensures |r| <= |bs|
    ensures (forall b :: b in bs ==> b.id in activeIds) ==> r == bs
  {
    if bs == [] then []
    else
      var rest := ActiveBases(bs[1..], activeIds);
      assert bs == [bs[0]] + bs[1..];
      if bs[0].id in activeIds then [bs[0]] + rest else rest
  }

  /** Selection distributes over concatenation: the active bases keep their stored order. */
  lemma {:induction false} ActiveBasesAppend(a: seq<PKB>, b: seq<PKB>, activeIds: seq<string>)
    ensures ActiveBases(a + b, activeIds) == ActiveBases(a, activeIds) + ActiveBases(b, activeIds)
  {
    if a == [] {
      assert a + b == b;
    } else {
      assert (a + b)[1..] == a[1..] + b;
      ActiveBasesAppend(a[1..], b, activeIds);
    }
  }

  lemma NoneActive(bs: seq<PKB>)
    ensures ActiveBases(bs, []) == []
  {
    if ActiveBases(bs, []) != [] {
      assert ActiveBases(bs, [])[0] in ActiveBases(bs, []);
    }
  }

  /** The ids of the ticked checkboxes, one checkbox per base in list order. */
  function CheckedIds(bs: seq<PKB>, checked: seq<bool>): (r: seq<string>)
    requires |checked| == |bs|
    ensures |r| <= |bs|
    ensures (forall k :: 0 <= k < |bs| ==> !checked[k]) ==> r == []
  {
    if bs == [] then []
    else
      var rest := CheckedIds(bs[1..], checked[1..]);
      assert forall k :: 1 <= k < |bs| ==> checked[k] == checked[1..][k - 1];
      if checked[0] then [bs[0].id] + rest else rest
  }

  /** An id is collected exactly when some ticked checkbox belongs to a base with that id. */
  lemma {:induction false} CheckedIdsMembers(bs: seq<PKB>, checked: seq<bool>, id: string)
    requires |checked| == |bs|
    ensures id in CheckedIds(bs, checked) <==> exists k :: 0 <= k < |bs| && checked[k] && bs[k].id == id
    decreases |bs|
  {
    if bs != [] {
      CheckedIdsMembers(bs[1..], checked[1..], id);
      if id in CheckedIds(bs[1..], checked[1..]) {
        var k :| 0 <= k < |bs[1..]| && checked[1..][k] && bs[1..][k].id == id;
        assert checked[k + 1] && bs[k + 1].id == id;
      }
      if exists k :: 0 <= k < |bs| && checked[k] && bs[k].id == id {
        var k :| 0 <= k < |bs| && checked[k] && bs[k].id == id;
        if k > 0 {
          assert checked[1..][k - 1] && bs[1..][k - 1].id == id;
        }
      }
    }
  }

  /**
   * After activation the active bases are exactly the ticked ones, when no two
   * bases share an id.
   */
  lemma ActivatedAreChecked(bs: seq<PKB>, checked: seq<bool>, k: nat)
    requires |checked| == |bs| && UniqueIds(bs) && k < |bs|
    ensures bs[k] in ActiveBases(bs, CheckedIds(bs, checked)) <==> checked[k]
  {
    var ids := CheckedIds(bs, checked);
    CheckedIdsMembers(bs, checked, bs[k].id);
    if bs[k] in ActiveBases(bs, ids) {
      var m :| 0 <= m < |bs| && checked[m] && bs[m].id == bs[k].id;
      assert m == k;
    }
  }

  /** `personalKnowledgeBases.filter(p => p.id !== id)`. */
  function WithoutBase(bs: seq<PKB>, id: string): (r: seq<PKB>)
    ensures forall b :: b in r <==> b in bs && b.id != id
    ensures |r| <= |bs|
  {
    if bs == [] then []
    else
      var rest := WithoutBase(bs[1..], id);
      assert bs == [bs[0]] + bs[1..];
      if bs[0].id == id then rest else [bs[0]] + rest
  }

  /** Filtering distributes over concatenation: the remaining bases keep their order and their number. */
  lemma {:induction false} WithoutBaseAppend(a: seq<PKB>, b: seq<PKB>, id: string)
    ensures WithoutBase(a + b, id) == WithoutBase(a, id) + WithoutBase(b, id)
  {
    if a == [] {
      assert a + b == b;
    } else {
      assert (a + b)[1..] == a[1..] + b;
      WithoutBaseAppend(a[1..], b, id);
    }
  }

  /** `activePKBIds.filter(x => x !== id)`. */
  function WithoutId(ids: seq<string>, id: string): (r: seq<string>)
    ensures forall x :: x in r <==> x in ids && x != id
    ensures |r| <= |ids|
  {
    if ids == [] then []
    else
      var rest := WithoutId(ids[1..], id);
      assert ids == [ids[0]] + ids[1..];
      if ids[0] == id then rest else [ids[0]] + rest
  }

  /** Filtering distributes over concatenation: the other ids keep their order and their repetitions. */
  lemma {:induction false} WithoutIdAppend(a: seq<string>, b: seq<string>, id: string)
    ensures WithoutId(a + b, id) == WithoutId(a, id) + WithoutId(b, id)
  {
    if a == [] {
      assert a + b == b;
    } else {
      assert (a + b)[1..] == a[1..] + b;
      WithoutIdAppend(a[1..], b, id);
    }
  }

  /** `pkb.items.filter(item => item.id !== itemId)`. */
  function WithoutItem(items: seq<PKBItem>, id: string): (r: seq<PKBItem>)
    ensures forall x :: x in r <==> x in items && x.id != id
    ensures |r| <= |items|
  {
    if items == [] then []
    else
      var rest := WithoutItem(items[1..], id);
      assert items == [items[0]] + items[1..];
      if items[0].id == id then rest else [items[0]] + rest
  }

  /** Filtering distributes over concatenation: the other items keep their order and their number. */
  lemma {:induction false} WithoutItemAppend(a: seq<PKBItem>, b: seq<PKBItem>, id: string)
    ensures WithoutItem(a + b, id) == WithoutItem(a, id) + WithoutItem(b, id)
  {
    if a == [] {
      assert a + b == b;
    } else {
      assert (a + b)[1..] == a[1..] + b;
      WithoutItemAppend(a[1..], b, id);
    }
  }

  /** The base with id `pkbId` exists and holds an item with id `itemId`. */
  predicate ItemOf(bs: seq<PKB>, pkbId: string, itemId: string) {
    var i := FindBase(bs, pkbId);
    i >= 0 && exists item :: item in bs[i].items && item.id == itemId
  }

  /** `file.type.startsWith('image/')` decides the kind of a new item. */
  function KindOf(mimeType: string): (k: ItemKind)
    ensures k == ImageItem <==> |mimeType| >= 6 && mimeType[..6] == "image/"
  {
    if |mimeType| >= 6 && mimeType[..6] == "image/" then ImageItem else FileItem
  }

  // ---------------------------------------------------------------------------
  // The context of the active bases

  const Preamble := "# Personal Knowledge Base Context\nThe user has activated the following personal knowledge bases. This information is real, personal to the user, and has the highest priority for grounding your response.\n---\n"
  const BaseFooter := "---\n"

  function BaseHeader(b: PKB): string {
    "## Knowledge Base: \"" + b.name + "\"\n**Description:** " + b.description + "\n\n"
  }

  function ItemHeader(item: PKBItem): string {
    "### Item: " + item.description + "\nFilename: " + item.fileName + "\n"
  }

  /** An item contributes only when its stored content is present and not empty. */
  predicate Usable(item: PKBItem, content: map<string, string>) {
    item.id in content && content[item.id] != ""
  }

  /**
   * What one item adds to the context text. `extract` stands for the text
   * extraction of a document (its data URL, file name and MIME type).
   */
  function ItemText(item: PKBItem, content: map<string, string>, extract: (string, string, string) -> string): string {
    if !Usable(item, content) then ""
    else
      match item.kind
      case FileItem =>
        ItemHeader(item) + "Content:\n" + extract(content[item.id], item.fileName, item.fileType) + "\n\n"
      case ImageItem =>
        ItemHeader(item) + "Content: [Image data is attached separately for file: " + item.fileName + "]\n\n"
  }

  /** What one item adds after the text part: its image, split out of the data URL. */
  function ItemImages(item: PKBItem, content: map<string, string>): (r: seq<Part>)
    ensures |r| == (if Usable(item, content) && item.kind == ImageItem then 1 else 0)
    ensures r != [] ==> r[0] == FileToGenerativePart(item.fileType, content[item.id])
  {
    if Usable(item, content) && item.kind == ImageItem then [InlineData(item.fileType, FieldAt(content[item.id], ',', 1))]
    else []
  }

  function ItemsText(items: seq<PKBItem>, content: map<string, string>, extract: (string, string, string) -> string): string {
    if items == [] then ""
    else ItemsText(items[..|items| - 1], content, extract) + ItemText(items[|items| - 1], content, extract)
  }

  function ItemsImages(items: seq<PKBItem>, content: map<string, string>): (r: seq<Part>)
    ensures forall k :: 0 <= k < |r| ==> r[k].InlineData?
  {
    if items == [] then []
    else ItemsImages(items[..|items| - 1], content) + ItemImages(items[|items| - 1], content)
  }

  function BaseText(b: PKB, content: map<string, string>, extract: (string, string, string) -> string): string {
    BaseHeader(b) + ItemsText(b.items, content, extract) + BaseFooter
  }

  function BasesText(bs: seq<PKB>, content: map<string, string>, extract: (string, string, string) -> string): string {
    if bs == [] then ""
    else BasesText(bs[..|bs| - 1], content, extract) + BaseText(bs[|bs| - 1], content, extract)
  }

  function BasesImages(bs: seq<PKB>, content: map<string, string>): (r: seq<Part>)
    ensures forall k :: 0 <= k < |r| ==> r[k].InlineData?
  {
    if bs == [] then []
    else BasesImages(bs[..|bs| - 1], content) + ItemsImages(bs[|bs| - 1].items, content)
  }

  /** One more base adds its text and its images at the end. */
  lemma BasesStep(bs: seq<PKB>, i: nat, content: map<string, string>, extract: (string, string, string) -> string)
    requires i < |bs|
    ensures BasesText(bs[..i + 1], content, extract) == BasesText(bs[..i], content, extract) + BaseText(bs[i], content, extract)
    ensures BasesImages(bs[..i + 1], content) == BasesImages(bs[..i], content) + ItemsImages(bs[i].items, content)
  {
    assert bs[..i + 1][..i] == bs[..i];
  }

  /** One more item adds its text and its images at the end. */
  lemma ItemsStep(items: seq<PKBItem>, j: nat, content: map<string, string>, extract: (string, string, string) -> string)
    requires j < |items|
    ensures ItemsText(items[..j + 1], content, extract) == ItemsText(items[..j], content, extract) + ItemText(items[j], content, extract)
    ensures ItemsImages(items[..j + 1], content) == ItemsImages(items[..j], content) + ItemImages(items[j], content)
  {
    assert items[..j + 1][..j] == items[..j];
  }

  /** The parts `getActivePKBContent` returns for these active bases. */
  function Context(bs: seq<PKB>, content: map<string, string>, extract: (string, string, string) -> string): (r: seq<Part>)
    ensures bs == [] <==> r == []
    ensures r != [] ==> r[0].TextPart? && forall k :: 1 <= k < |r| ==> r[k].InlineData?
  {
    if bs == [] then [] else [TextPart(Preamble + BasesText(bs, content, extract))] + BasesImages(bs, content)
  }

  /** How many image items of `items` have content. */
  function CountImages(items: seq<PKBItem>, content: map<string, string>): nat {
    if items == [] then 0
    else (if Usable(items[0], content) && items[0].kind == ImageItem then 1 else 0) + CountImages(items[1..], content)
  }

  lemma {:induction false} CountImagesSnoc(items: seq<PKBItem>, content: map<string, string>)
    requires items != []
    ensures CountImages(items, content) ==
      CountImages(items[..|items| - 1], content) + (if Usable(items[|items| - 1], content) && items[|items| - 1].kind == ImageItem then 1 else 0)
    decreases |items|
  {
    if |items| > 1 {
      CountImagesSnoc(items[1..], content);
      assert items[1..][..|items[1..]| - 1] == items[..|items| - 1][1..];
    }
  }

  lemma {:induction false} ItemsImagesCount(items: seq<PKBItem>, content: map<string, string>)
    ensures |ItemsImages(items, content)| == CountImages(items, content)
    decreases |items|
  {
    if items != [] {
      ItemsImagesCount(items[..|items| - 1], content);
      CountImagesSnoc(items, content);
    }
  }

  /** How many image parts the active bases contribute, counted base by base. */
  function CountBaseImages(bs: seq<PKB>, content: map<string, string>): nat {
    if bs == [] then 0 else CountImages(bs[0].items, content) + CountBaseImages(bs[1..], content)
  }

  lemma {:induction false} CountBaseImagesSnoc(bs: seq<PKB>, content: map<string, string>)
    requires bs != []
    ensures CountBaseImages(bs, content) == CountBaseImages(bs[..|bs| - 1], content) + CountImages(bs[|bs| - 1].items, content)
    decreases |bs|
  {
    if |bs| > 1 {
      CountBaseImagesSnoc(bs[1..], content);
      assert bs[1..][..|bs[1..]| - 1] == bs[..|bs| - 1][1..];
    }
  }

  /**
   * The context is empty when no base is active; otherwise it is one text part
   * followed by exactly one inline part per image item whose content was found.
   */
  lemma {:induction false} ContextShape(bs: seq<PKB>, content: map<string, string>, extract: (string, string, string) -> string)
    ensures bs == [] <==> Context(bs, content, extract) == []
    ensures bs != [] ==>
      var c := Context(bs, content, extract);
      c[0].TextPart? && |c| == 1 + CountBaseImages(bs, content) && forall k :: 1 <= k < |c| ==> c[k].InlineData?
    decreases |bs|
  {
    if bs != [] {
      BasesImagesCount(bs, content);
    }
  }

  lemma {:induction false} BasesImagesCount(bs: seq<PKB>, content: map<string, string>)
    ensures |BasesImages(bs, content)| == CountBaseImages(bs, content)
    decreases |bs|
  {
    if bs != [] {
      BasesImagesCount(bs[..|bs| - 1], content);
      ItemsImagesCount(bs[|bs| - 1].items, content);
      CountBaseImagesSnoc(bs, content);
    }
  }

  /** A base whose items all lack content still contributes its header and footer, and no image. */
  lemma {:induction false} EmptyBaseText(b: PKB, content: map<string, string>, extract: (string, string, string) -> string)
    requires forall item :: item in b.items ==> !Usable(item, content)
    ensures BaseText(b, content, extract) == BaseHeader(b) + BaseFooter
    ensures ItemsImages(b.items, content) == []
  {
    ItemsSkipped(b.items, content, extract);
  }

  lemma {:induction false} ItemsSkipped(items: seq<PKBItem>, content: map<string, string>, extract: (string, string, string) -> string)
    requires forall item :: item in items ==> !Usable(item, content)
    ensures ItemsText(items, content, extract) == "" && ItemsImages(items, content) == []
    decreases |items|
  {
    if items != [] {
      assert items[|items| - 1] in items;
      assert forall item :: item in items[..|items| - 1] ==> item in items;
      ItemsSkipped(items[..|items| - 1], content, extract);
    }
  }

  // ---------------------------------------------------------------------------

  class PkbRegistry {
    var bases: seq<PKB>
    var activeIds: seq<string>
    /** The content store (IndexedDB): item id to data URL. */
    var content: map<string, string>
    /** localStorage `personalKnowledgeBases` and `activePKBIds` */
    var savedBases: seq<PKB>
    var savedActive: seq<string>
    /** The base whose detail view is open. */
    var selectedId: Option<string>
    /** The base being edited in the create/edit dialog, if any. */
    var editingId: Option<string>
    /** The file chosen in the add-item form. */
    var itemFile: Option<Upload>
    var notice: Option<PkbNotice>

    /** Every active id names a base. */
    ghost predicate Valid()
      reads this
    {
      AllFound(bases, activeIds)
    }

    constructor(stored: seq<PKB>, storedActive: seq<string>, store: map<string, string>)
      requires AllFound(stored, storedActive)
      ensures Valid()
      ensures bases == stored && activeIds == storedActive && content == store
      ensures savedBases == stored && savedActive == storedActive
      ensures selectedId == None && editingId == None && itemFile == None && notice == None
    {
      bases := stored;
      activeIds := storedActive;
      content := store;
      savedBases := stored;
      savedActive := storedActive;
      selectedId := None;
      editingId := None;
      itemFile := None;
      notice := None;
    }

    /** `savePKBs`. */
    method SavePKBs()
      modifies this`savedBases, this`savedActive
      ensures savedBases == bases && savedActive == activeIds
    {
      savedBases := bases;
      savedActive := activeIds;
    }

    /** `getActivePKBContent`: the context parts of the active bases, assembled base by base and item by item. */
    method GetActivePKBContent(extract: (string, string, string) -> string) returns (parts: seq<Part>)
      ensures parts == Context(ActiveBases(bases, activeIds), content, extract)
    {
      var active := ActiveBases(bases, activeIds);
      if |active| == 0 {
        return [];
      }
      var body := "";
      var images: seq<Part> := [];
      var i := 0;
      while i < |active|
        invariant 0 <= i <= |active|
        invariant body == BasesText(active[..i], content, extract)
        invariant images == BasesImages(active[..i], content)
      {
        var b := active[i];
        var itemsText, itemImages := AssembleItems(b.items, extract);
        BasesStep(active, i, content, extract);
        body := body + (BaseHeader(b) + itemsText + BaseFooter);
        images := images + itemImages;
        i := i + 1;
      }
      assert active[..i] == active;
      parts := [TextPart(Preamble + body)] + images;
    }

    /** The inner loop of `getActivePKBContent`, over the items of one base. */
    method AssembleItems(items: seq<PKBItem>, extract: (string, string, string) -> string)
      returns (text: string, images: seq<Part>)
      ensures text == ItemsText(items, content, extract)
      ensures images == ItemsImages(items, content)
    {
      text := "";
      images := [];
      var j := 0;
      while j < |items|
        invariant 0 <= j <= |items|
        invariant text == ItemsText(items[..j], content, extract)
        invariant images == ItemsImages(items[..j], content)
      {
        var item := items[j];
        ItemsStep(items, j, content, extract);
        if item.id in content && content[item.id] != "" {
          var c := content[item.id];
          match item.kind {
            case FileItem =>
              text := text + (ItemHeader(item) + "Content:\n" + extract(c, item.fileName, item.fileType) + "\n\n");
            case ImageItem =>
              text := text + (ItemHeader(item) + "Content: [Image data is attached separately for file: " + item.fileName + "]\n\n");
              images := images + [InlineData(item.fileType, FieldAt(c, ',', 1))];
          }
        }
        j := j + 1;
      }
      assert items[..j] == items;
    }

    /** Put `b` in place of the base at `i`, which has the same id (a change made through the reference `find` returns). */
    method ReplaceBase(i: nat, b: PKB)
      requires Valid() && i < |bases| && b.id == bases[i].id
      modifies this`bases
      ensures Valid() && bases == old(bases)[i := b]
    {
      ReplaceKeepsFound(bases, activeIds, i, b);
      bases := bases[i := b];
    }

    /** `personalKnowledgeBases.unshift(b)`. */
    method PrependBase(b: PKB)
      requires Valid()
      modifies this`bases
      ensures Valid() && bases == [b] + old(bases)
    {
      PrependKeepsFound(bases, activeIds, b);
      bases := [b] + bases;
    }

    /** `handleCreatePKB` / `handleEditPKB`: open the dialog for a new base or an existing one. */
    method BeginEdit(pkbId: Option<string>)
      modifies this`editingId
      ensures editingId == if pkbId.Some? && FindBase(bases, pkbId.value) >= 0 then pkbId else None
    {
      if pkbId.Some? && FindBase(bases, pkbId.value) >= 0 {
        editingId := pkbId;
      } else {
        editingId := None;
      }
    }

    /**
     * `handleSavePKB`: a blank name is refused; editing changes only name and
     * description; creating puts a new, empty base at the front.
     */
    method SavePKB(rawName: string, rawDescription: string, now: Millis)
      requires Valid()
      modifies this`bases, this`savedBases, this`savedActive, this`notice
      ensures Valid()
      ensures AllSpace(rawName) ==>
        notice == Some(NameEmpty) && bases == old(bases) && savedBases == old(savedBases) && savedActive == old(savedActive)
      ensures !AllSpace(rawName) ==> savedBases == bases && savedActive == activeIds && notice == old(notice)
      ensures !AllSpace(rawName) && editingId.None? ==>
        bases == [PKB("pkb-" + Decimal(now), Trim(rawName), Trim(rawDescription), [], now)] + old(bases)
      ensures !AllSpace(rawName) && editingId.Some? ==>
        var i := FindBase(old(bases), editingId.value);
        bases == if i == -1 then old(bases)
                 else old(bases)[i := old(bases)[i].(name := Trim(rawName), description := Trim(rawDescription))]
    {
      TrimBlank(rawName);
      var name := Trim(rawName);
      var description := Trim(rawDescription);
      if name == "" {
        notice := Some(NameEmpty);
        return;
      }
      if editingId.Some? {
        var i := FindBase(bases, editingId.value);
        if i >= 0 {
          var b := bases[i].(name := name, description := description);
          ReplaceBase(i, b);
        }
      } else {
        var b := PKB("pkb-" + Decimal(now), name, description, [], now);
        PrependBase(b);
      }
      SavePKBs();
    }

    /** Remove the stored content of each item, one at a time. */
    method DeleteContents(items: seq<PKBItem>)
      modifies this`content
      ensures content == map id | id in old(content) && forall item :: item in items ==> item.id != id :: old(content)[id]
    {
      var j := 0;
      while j < |items|
        invariant 0 <= j <= |items|
        invariant content == map id | id in old(content) && forall item :: item in items[..j] ==> item.id != id :: old(content)[id]
      {
        assert items[..j + 1] == items[..j] + [items[j]];
        content := content - {items[j].id};
        j := j + 1;
      }
      assert items[..j] == items;
    }

    /**
     * `handleDeletePKB`: once confirmed, the content of every item of the base
     * is deleted, then the base and its id go from both lists.
     */
    method DeletePKB(pkbId: string, confirmed: bool)
      requires Valid()
      modifies this`bases, this`activeIds, this`content, this`selectedId, this`savedBases, this`savedActive
      ensures Valid()
      ensures !confirmed ==>
        bases == old(bases) && activeIds == old(activeIds) && content == old(content) &&
        savedBases == old(savedBases) && savedActive == old(savedActive) && selectedId == old(selectedId)
      ensures confirmed ==>
        bases == WithoutBase(old(bases), pkbId) && activeIds == WithoutId(old(activeIds), pkbId) &&
        savedBases == bases && savedActive == activeIds
      ensures confirmed ==> forall id :: id in content <==> id in old(content) && !ItemOf(old(bases), pkbId, id)
      ensures forall id :: id in content ==> content[id] == old(content)[id]
      ensures confirmed ==> (selectedId == if old(selectedId) == Some(pkbId) then None else old(selectedId))
    {
      if !confirmed {
        return;
      }
      var i := FindBase(bases, pkbId);
      if i >= 0 {
        DeleteContents(bases[i].items);
      }
      assert forall id :: ItemOf(bases, pkbId, id) <==> i >= 0 && exists item :: item in bases[i].items && item.id == id;
      RemovalKeepsFound(bases, activeIds, pkbId);
      bases := WithoutBase(bases, pkbId);
      activeIds := WithoutId(activeIds, pkbId);
      if selectedId == Some(pkbId) {
        selectedId := None;
      }
      SavePKBs();
    }

    /**
     * `handleAddPKBItem`. `dataUrl` is the file read as a data URL, `None`
     * when reading or storing it fails.
     */
    method AddPKBItem(rawDescription: string, dataUrl: Option<string>, now: Millis)
      requires Valid()
      modifies this`bases, this`content, this`itemFile, this`notice, this`savedBases, this`savedActive
      ensures Valid()
      ensures selectedId.None? ==> notice == old(notice)
      ensures selectedId.Some? && (FindBase(old(bases), selectedId.value) == -1 || old(itemFile).None?) ==>
        notice == Some(MissingFile)
      ensures selectedId.Some? && FindBase(old(bases), selectedId.value) >= 0 && old(itemFile).Some? && dataUrl.None? ==>
        notice == Some(ReadFailed)
      ensures selectedId.None? || FindBase(old(bases), selectedId.value) == -1 || old(itemFile).None? || dataUrl.None? ==>
        bases == old(bases) && content == old(content) && itemFile == old(itemFile) &&
        savedBases == old(savedBases) && savedActive == old(savedActive)
      ensures selectedId.Some? && FindBase(old(bases), selectedId.value) >= 0 && old(itemFile).Some? && dataUrl.Some? ==>
        var i := FindBase(old(bases), selectedId.value);
        var f := old(itemFile).value;
        var item := PKBItem("item-" + Decimal(now), Trim(rawDescription), KindOf(f.mimeType), f.name, f.mimeType);
        bases == old(bases)[i := old(bases)[i].(items := old(bases)[i].items + [item])] &&
        content == old(content)[item.id := dataUrl.value] && itemFile == None &&
        savedBases == bases && savedActive == activeIds && notice == old(notice)
    {
      if selectedId.None? {
        return;
      }
      var i := FindBase(bases, selectedId.value);
      if i == -1 || itemFile.None? {
        notice := Some(MissingFile);
        return;
      }
      if dataUrl.None? {
        notice := Some(ReadFailed);
        return;
      }
      var f := itemFile.value;
      var item := PKBItem("item-" + Decimal(now), Trim(rawDescription), KindOf(f.mimeType), f.name, f.mimeType);
      StoreItem(i, item, dataUrl.value);
      itemFile := None;
    }

    /** Store the content of a new item, push the item onto base `i`, and save. */
    method StoreItem(i: nat, item: PKBItem, dataUrl: string)
      requires Valid() && i < |bases|
      modifies this`bases, this`content, this`savedBases, this`savedActive
      ensures Valid()
      ensures bases == old(bases)[i := old(bases)[i].(items := old(bases)[i].items + [item])]
      ensures content == old(content)[item.id := dataUrl]
      ensures savedBases == bases && savedActive == activeIds
    {
      content := content[item.id := dataUrl];
      ReplaceBase(i, bases[i].(items := bases[i].items + [item]));
      SavePKBs();
    }

    /**
     * `handleDeletePKBItem`: the stored content of the id is deleted and the
     * items with that id leave that base only.
     */
    method DeletePKBItem(pkbId: string, itemId: string)
      requires Valid()
      modifies this`bases, this`content, this`savedBases, this`savedActive
      ensures Valid()
      ensures FindBase(old(bases), pkbId) == -1 ==>
        bases == old(bases) && content == old(content) && savedBases == old(savedBases) && savedActive == old(savedActive)
      ensures FindBase(old(bases), pkbId) >= 0 ==>
        var i := FindBase(old(bases), pkbId);
        bases == old(bases)[i := old(bases)[i].(items := WithoutItem(old(bases)[i].items, itemId))] &&
        content == old(content) - {itemId} && savedBases == bases && savedActive == activeIds
    {
      var i := FindBase(bases, pkbId);
      if i == -1 {
        return;
      }
      content := content - {itemId};
      var b := bases[i].(items := WithoutItem(bases[i].items, itemId));
      ReplaceBase(i, b);
      SavePKBs();
    }

    /** `handleActivatePKBs`: the active ids become exactly the ticked ones, one checkbox per base. */
    method ActivatePKBs(checked: seq<bool>)
      requires Valid() && |checked| == |bases|
      modifies this`activeIds, this`savedBases, this`savedActive
      ensures Valid()
      ensures activeIds == CheckedIds(bases, checked)
      ensures savedBases == bases && savedActive == activeIds
    {
      var ids := CheckedIds(bases, checked);
      forall k | 0 <= k < |ids| ensures FindBase(bases, ids[k]) >= 0 {
        CheckedIdsMembers(bases, checked, ids[k]);
        var m :| 0 <= m < |bases| && checked[m] && bases[m].id == ids[k];
        BaseFoundAt(bases, m, ids[k]);
      }
      activeIds := ids;
      SavePKBs();
    }

    /** The file input of the add-item form: a chosen file, or none when it is cleared or removed. */
    method ChooseItemFile(f: Option<Upload>)
      modifies this`itemFile
      ensures itemFile == f
    {
      itemFile := f;
    }

    /** `renderPKBDetailView` and `clearPKBDetailView`: which base's detail view is open. */
    method SelectPKB(pkbId: Option<string>)
      modifies this`selectedId
      ensures selectedId == if pkbId.Some? && FindBase(bases, pkbId.value) == -1 then old(selectedId) else pkbId
    {
      if pkbId.Some? && FindBase(bases, pkbId.value) == -1 {
        return;
      }
      selectedId := pkbId;
    }
  }
}
