/**
 * The document metadata holder (`PdfDocInfo`): one map under the fixed keys
 * the PDF engine uses, whose values may be null (a map handed to `CreateFrom`
 * may hold nulls), written through null-filtering setters and read through
 * lookups that answer null for an absent key and for a null value alike.
 */
module DocInfo {
  import opened Lang
  import opened JavaMaps

  const TITLE := "Title"
  const AUTHOR := "Author"
  const SUBJECT := "Subject"
  const KEYWORDS := "Keywords"
  const CREATOR := "Creator"
  const CREATION_DATE := "CreationDate"
  const MODIFICATION_DATE := "ModDate"
  const PRODUCER := "Producer"

  /** The keys the five public setters write. */
  const SETTER_KEYS: set<string> := {TITLE, AUTHOR, SUBJECT, KEYWORDS, CREATOR}

  /** The keys no public setter writes: only the engine, or a map handed to `CreateFrom`, fills them. */
  const ENGINE_KEYS: set<string> := {CREATION_DATE, MODIFICATION_DATE, PRODUCER}

  /**
   * What one setter does to the metadata: a present value (the empty string
   * included) is stored under `key`; null changes nothing.
   */
  function StoreIfPresent(info: map<string, Option<string>>, key: string, value: Option<string>): (r: map<string, Option<string>>)
    ensures value.Some? ==> Get(r, key) == value
    ensures value.None? ==> r == info
    ensures forall k :: k != key ==> Lookup(r, k) == Lookup(info, k)
    ensures r.Keys == if value.Some? then info.Keys + {key} else info.Keys
  {
    if value.Some? then info[key := value] else info
  }

  /** A setter, whatever its value, never changes what the producer and date accessors read. */
  lemma SettersLeaveEngineKeys(info: map<string, Option<string>>, key: string, value: Option<string>, k: string)
    requires key in SETTER_KEYS && k in ENGINE_KEYS
    ensures Lookup(StoreIfPresent(info, key, value), k) == Lookup(info, k)
  {
    assert key != k;
  }

  class PdfDocInfo {
    /** The backing map; never null, and never replaced once constructed. */
    const docInfo: StringMap<Option<string>>

    /** The private constructor: adopts `info` as the backing map, without copying it. */
    constructor (info: StringMap<Option<string>>)
      ensures docInfo == info
    {
      docInfo := info;
    }

    /** `create()`: a holder over a fresh, empty map. */
    static method Create() returns (d: PdfDocInfo)
      ensures fresh(d) && fresh(d.docInfo)
      ensures d.docInfo.entries == map[]
      ensures d.Title().None? && d.Author().None? && d.Subject().None?
      ensures d.Keywords().None? && d.Creator().None?
      ensures d.Producer().None? && d.CreationRaw().None? && d.ModificationRaw().None?
    {
      var m := new StringMap<Option<string>>();
      d := new PdfDocInfo(m);
    }

    /** `create(info)`: refuses null, otherwise adopts the caller's map object itself. */
    static method CreateFrom(info: StringMap?<Option<string>>) returns (r: Result<PdfDocInfo>)
      ensures r.Err? <==> info == null
      ensures r.Err? ==> r.error == InvalidArgument
      ensures r.Ok? ==> fresh(r.value) && r.value.docInfo == info
    {
      if info == null {
        return Err(InvalidArgument);
      }
      var d := new PdfDocInfo(info);
      return Ok(d);
    }

    /** `title(String)`: stores a non-null value under its own key; null is ignored. */
    method SetTitle(title: Option<string>)
      modifies docInfo
      ensures docInfo.entries == StoreIfPresent(old(docInfo.entries), TITLE, title)
      ensures Title() == if title.Some? then title else old(Title())
    {
      if title.Some? {
        docInfo.Put(TITLE, title);
      }
    }

    /** `author(String)`: stores a non-null value under its own key; null is ignored. */
    method SetAuthor(author: Option<string>)
      modifies docInfo
      ensures docInfo.entries == StoreIfPresent(old(docInfo.entries), AUTHOR, author)
      ensures Author() == if author.Some? then author else old(Author())
    {
      if author.Some? {
        docInfo.Put(AUTHOR, author);
      }
    }

    /** `subject(String)`: stores a non-null value under its own key; null is ignored. */
    method SetSubject(subject: Option<string>)
      modifies docInfo
      ensures docInfo.entries == StoreIfPresent(old(docInfo.entries), SUBJECT, subject)
      ensures Subject() == if subject.Some? then subject else old(Subject())
    {
      if subject.Some? {
        docInfo.Put(SUBJECT, subject);
      }
    }

    /** `keywords(String)`: stores a non-null value under its own key; null is ignored. */
    method SetKeywords(keywords: Option<string>)
      modifies docInfo
      ensures docInfo.entries == StoreIfPresent(old(docInfo.entries), KEYWORDS, keywords)
      ensures Keywords() == if keywords.Some? then keywords else old(Keywords())
    {
      if keywords.Some? {
        docInfo.Put(KEYWORDS, keywords);
      }
    }

    /** `creator(String)`: stores a non-null value under its own key; null is ignored. */
    method SetCreator(creator: Option<string>)
      modifies docInfo
      ensures docInfo.entries == StoreIfPresent(old(docInfo.entries), CREATOR, creator)
      ensures Creator() == if creator.Some? then creator else old(Creator())
    {
      if creator.Some? {
        docInfo.Put(CREATOR, creator);
      }
    }

    /** The getters are plain lookups: null when the key is absent. */
    function Title(): (r: Option<string>)
      reads docInfo
      ensures r.Some? <==> TITLE in docInfo.entries && docInfo.entries[TITLE].Some?
      ensures r.Some? ==> docInfo.entries[TITLE] == r
    {
      Get(docInfo.entries, TITLE)
    }

    function Author(): (r: Option<string>)
      reads docInfo
      ensures r.Some? <==> AUTHOR in docInfo.entries && docInfo.entries[AUTHOR].Some?
      ensures r.Some? ==> docInfo.entries[AUTHOR] == r
    {
      Get(docInfo.entries, AUTHOR)
    }

    function Subject(): (r: Option<string>)
      reads docInfo
      ensures r.Some? <==> SUBJECT in docInfo.entries && docInfo.entries[SUBJECT].Some?
      ensures r.Some? ==> docInfo.entries[SUBJECT] == r
    {
      Get(docInfo.entries, SUBJECT)
    }

    function Keywords(): (r: Option<string>)
      reads docInfo
      ensures r.Some? <==> KEYWORDS in docInfo.entries && docInfo.entries[KEYWORDS].Some?
      ensures r.Some? ==> docInfo.entries[KEYWORDS] == r
    {
      Get(docInfo.entries, KEYWORDS)
    }

    function Creator(): (r: Option<string>)
      reads docInfo
      ensures r.Some? <==> CREATOR in docInfo.entries && docInfo.entries[CREATOR].Some?
      ensures r.Some? ==> docInfo.entries[CREATOR] == r
    {
      Get(docInfo.entries, CREATOR)
    }

    /** The encoded creation date, as the engine wrote it. */
    function CreationRaw(): (r: Option<string>)
      reads docInfo
      ensures r.Some? <==> CREATION_DATE in docInfo.entries && docInfo.entries[CREATION_DATE].Some?
      ensures r.Some? ==> docInfo.entries[CREATION_DATE] == r
    {
      Get(docInfo.entries, CREATION_DATE)
    }

    /** The encoded modification date, as the engine wrote it. */
    function ModificationRaw(): (r: Option<string>)
      reads docInfo
      ensures r.Some? <==> MODIFICATION_DATE in docInfo.entries && docInfo.entries[MODIFICATION_DATE].Some?
      ensures r.Some? ==> docInfo.entries[MODIFICATION_DATE] == r
    {
      Get(docInfo.entries, MODIFICATION_DATE)
    }

    /** Read-only: the engine's licence does not allow callers to set it. */
    function Producer(): (r: Option<string>)
      reads docInfo
      ensures r.Some? <==> PRODUCER in docInfo.entries && docInfo.entries[PRODUCER].Some?
      ensures r.Some? ==> docInfo.entries[PRODUCER] == r
    {
      Get(docInfo.entries, PRODUCER)
    }

    /** `toMap()`: a new map object per call, equal in content to the backing map. */
    method ToMap() returns (m: StringMap<Option<string>>)
      ensures fresh(m) && m.entries == docInfo.entries
    {
      m := new StringMap.Copy(docInfo);
    }

    /** `equals`: identity, or another holder whose map has the same entries. */
    function Equals(other: PdfDocInfo?): (r: bool)
      reads docInfo, if other == null then {} else {other.docInfo}
      ensures r <==> other != null && docInfo.entries == other.docInfo.entries
    {
      this == other || (other != null && docInfo.entries == other.docInfo.entries)
    }
  }

  /**
   * Changing the map `toMap` returned leaves the holder as it was: the copy
   * is a different object, so writing to it touches nothing the getters read.
   */
  method ChangeCopy(d: PdfDocInfo, key: string, value: Option<string>) returns (copy: StringMap<Option<string>>)
    ensures copy != d.docInfo
    ensures copy.entries == d.docInfo.entries[key := value]
  {
    copy := d.ToMap();
    copy.Put(key, value);
  }
}
