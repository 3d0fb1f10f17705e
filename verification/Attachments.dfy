/** `hydrate_attachments` of past_emails.rs: the manifest of an archived message's attachments. */
module Attachments {
  import opened Options
  import opened Text

  /** An entry of the incoming attachments directory; `text` is its content read as text. */
  datatype DirEntry = DirEntry(name: string, isFile: bool, size: nat, text: string)

  datatype Storage = Local | Azure

  datatype Entry = Entry(fileName: string, originalName: string, contentType: string, size: nat,
                         storage: Storage, relativePath: Option<string>, azureUrl: Option<string>)

  /** Original name and content type, by sanitised name. */
  type Meta = map<string, (string, string)>

  const SIDECAR := ".azure_url"

  predicate IsSidecarName(name: string) {
    |name| >= |SIDECAR| && name[|name| - |SIDECAR|..] == SIDECAR
  }

  /** `trim_end_matches`: the suffix is stripped as often as it occurs. */
  function Base(name: string): string
    decreases |name|
  {
    if IsSidecarName(name) then Base(name[..|name| - |SIDECAR|]) else name
  }

  /** The sidecar suffix, `k` times. */
  function Suffixes(k: nat): string {
    if k == 0 then "" else Suffixes(k - 1) + ".azure_url"
  }

  ghost predicate EndsWith(name: string, suffix: string) {
    exists base: string :: name == base + suffix
  }

  lemma SidecarMeans(name: string)
    ensures IsSidecarName(name) <==> EndsWith(name, ".azure_url")
  {
    if IsSidecarName(name) {
      assert name == name[..|name| - |SIDECAR|] + ".azure_url";
    }
    if EndsWith(name, ".azure_url") {
      var base: string :| name == base + ".azure_url";
      assert name[|name| - |SIDECAR|..] == SIDECAR;
    }
  }

  /** The base is the name without any suffix at its end. */
  lemma {:induction false} BaseMeans(name: string) returns (k: nat)
    ensures name == Base(name) + Suffixes(k) && !EndsWith(Base(name), ".azure_url")
    decreases |name|
  {
    SidecarMeans(name);
    k := 0;
    if IsSidecarName(name) {
      var rest := name[..|name| - |SIDECAR|];
      var less := BaseMeans(rest);
      k := less + 1;
      assert name == rest + ".azure_url";
      Assoc3(Base(rest), Suffixes(less), ".azure_url");
    }
  }

  /** The plain files of the directory, in its order. */
  function PlainFiles(dir: seq<DirEntry>): seq<DirEntry> {
    if dir == [] then []
    else
      var f := dir[|dir| - 1];
      PlainFiles(dir[..|dir| - 1]) + if f.isFile && !IsSidecarName(f.name) then [f] else []
  }

  /** An entry tells its file: names, type, size, and by size where it is stored and how it is reached. */
  ghost predicate Tells(e: Entry, f: DirEntry, meta: Meta, urls: map<string, string>, max: nat) {
    && e.fileName == f.name && e.size == f.size
    && (if f.name in meta then e.originalName == meta[f.name].0 && e.contentType == meta[f.name].1
        else e.originalName == f.name && e.contentType == "")
    && (if f.size <= max then e.storage == Local && e.relativePath == Some("incoming_attachments/" + f.name) && e.azureUrl == None
        else e.storage == Azure && e.relativePath == None
             && (if f.name in urls then e.azureUrl == Some(urls[f.name]) else e.azureUrl == None))
  }

  /** An entry for a file that is only linked: no size, the sidecar's URL. */
  ghost predicate TellsLink(e: Entry, meta: Meta, urls: map<string, string>) {
    && e.fileName in urls && e.azureUrl == Some(urls[e.fileName])
    && e.size == 0 && e.storage == Azure && e.relativePath == None
    && (if e.fileName in meta then e.originalName == meta[e.fileName].0 && e.contentType == meta[e.fileName].1
        else e.originalName == e.fileName && e.contentType == "")
  }

  predicate IsPlain(f: DirEntry) {
    f.isFile && !IsSidecarName(f.name)
  }

  predicate IsLink(f: DirEntry) {
    f.isFile && IsSidecarName(f.name) && !Blank(f.text)
  }

  function PlainNames(dir: seq<DirEntry>): set<string> {
    set f | f in dir && IsPlain(f) :: f.name
  }

  function LinkedNames(dir: seq<DirEntry>): set<string> {
    set f | f in dir && IsLink(f) :: Base(f.name)
  }

  function CopiedNames(dir: seq<DirEntry>, max: nat): set<string> {
    set f | f in dir && IsPlain(f) && f.size <= max :: f.name
  }

  function Names(entries: seq<Entry>): set<string> {
    set e | e in entries :: e.fileName
  }

  function NamesIn(entries: seq<Entry>, storage: Storage): set<string> {
    set e | e in entries && e.storage == storage :: e.fileName
  }

  function CountAzure(entries: seq<Entry>): nat {
    if entries == [] then 0
    else CountAzure(entries[..|entries| - 1]) + if entries[|entries| - 1].storage == Azure then 1 else 0
  }

  ghost predicate DistinctNames(entries: seq<Entry>) {
    forall i, j :: 0 <= i < j < |entries| ==> entries[i].fileName != entries[j].fileName
  }

  ghost predicate DistinctFiles(dir: seq<DirEntry>) {
    forall i, j :: 0 <= i < j < |dir| ==> dir[i].name != dir[j].name
  }

  function Described(meta: Meta, name: string): (string, string) {
    if name in meta then meta[name] else (name, "")
  }

  function UrlOf(urls: map<string, string>, name: string): Option<string> {
    if name in urls then Some(urls[name]) else None
  }

  function FileEntry(f: DirEntry, meta: Meta, urls: map<string, string>, max: nat): Entry {
    var (original, contentType) := Described(meta, f.name);
    if f.size > max then Entry(f.name, original, contentType, f.size, Azure, None, UrlOf(urls, f.name))
    else Entry(f.name, original, contentType, f.size, Local, Some("incoming_attachments/" + f.name), None)
  }

  function LinkEntry(name: string, url: string, meta: Meta): Entry {
    var (original, contentType) := Described(meta, name);
    Entry(name, original, contentType, 0, Azure, None, Some(url))
  }

  // ---------------------------------------------------------------- growing the manifest

  /** The books of a manifest under construction. */
  ghost predicate Booked(entries: seq<Entry>, total: nat, large: nat, copied: set<string>) {
    && DistinctNames(entries) && total == |entries| && large == CountAzure(entries)
    && copied == NamesIn(entries, Local)
  }

  lemma Book(entries: seq<Entry>, total: nat, large: nat, copied: set<string>, e: Entry)
    requires Booked(entries, total, large, copied) && e.fileName !in Names(entries)
    ensures Booked(entries + [e], total + 1, large + (if e.storage == Azure then 1 else 0),
                   copied + if e.storage == Local then {e.fileName} else {})
    ensures Names(entries + [e]) == Names(entries) + {e.fileName}
  {
  }

  lemma NamesSnoc(dir: seq<DirEntry>, f: DirEntry, max: nat)
    ensures PlainNames(dir + [f]) == PlainNames(dir) + if IsPlain(f) then {f.name} else {}
    ensures LinkedNames(dir + [f]) == LinkedNames(dir) + if IsLink(f) then {Base(f.name)} else {}
    ensures CopiedNames(dir + [f], max) == CopiedNames(dir, max) + if IsPlain(f) && f.size <= max then {f.name} else {}
  {
  }

  /** Entry `i` is the last sidecar with text for the name `n`. */
  ghost predicate LastLink(dir: seq<DirEntry>, n: string, i: int) {
    && 0 <= i < |dir| && IsLink(dir[i]) && Base(dir[i].name) == n
    && forall j :: i < j < |dir| && IsLink(dir[j]) ==> Base(dir[j].name) != n
  }

  /** Each URL is the trimmed text of the last sidecar for its name. */
  ghost predicate UrlsTold(dir: seq<DirEntry>, urls: map<string, string>) {
    && urls.Keys == LinkedNames(dir)
    && forall n | n in urls :: exists i :: LastLink(dir, n, i) && urls[n] == Trim(dir[i].text)
  }

  lemma LastLinkStays(dir: seq<DirEntry>, f: DirEntry, n: string, i: int)
    requires LastLink(dir, n, i) && !(IsLink(f) && Base(f.name) == n)
    ensures LastLink(dir + [f], n, i) && (dir + [f])[i] == dir[i]
  {
    assert forall m :: 0 <= m < |dir| ==> (dir + [f])[m] == dir[m];
  }

  lemma NewestLink(dir: seq<DirEntry>, f: DirEntry)
    requires IsLink(f)
    ensures LastLink(dir + [f], Base(f.name), |dir|) && (dir + [f])[|dir|] == f
  {
  }

  lemma UrlStays(dir: seq<DirEntry>, f: DirEntry, urls: map<string, string>, n: string)
    requires UrlsTold(dir, urls) && n in urls && !(IsLink(f) && Base(f.name) == n)
    ensures exists i :: LastLink(dir + [f], n, i) && urls[n] == Trim((dir + [f])[i].text)
  {
    var i :| LastLink(dir, n, i) && urls[n] == Trim(dir[i].text);
    LastLinkStays(dir, f, n, i);
  }

  lemma UrlsSkip(dir: seq<DirEntry>, f: DirEntry, urls: map<string, string>)
    requires UrlsTold(dir, urls) && !IsLink(f)
    ensures UrlsTold(dir + [f], urls)
  {
    NamesSnoc(dir, f, 0);
    forall n | n in urls ensures exists i :: LastLink(dir + [f], n, i) && urls[n] == Trim((dir + [f])[i].text) {
      UrlStays(dir, f, urls, n);
    }
  }

  lemma UrlsAdd(dir: seq<DirEntry>, f: DirEntry, urls: map<string, string>)
    requires UrlsTold(dir, urls) && IsLink(f)
    ensures UrlsTold(dir + [f], urls[Base(f.name) := Trim(f.text)])
  {
    var now, more := urls[Base(f.name) := Trim(f.text)], dir + [f];
    NamesSnoc(dir, f, 0);
    forall n | n in now ensures exists i :: LastLink(more, n, i) && now[n] == Trim(more[i].text) {
      if n == Base(f.name) {
        NewestLink(dir, f);
      } else {
        UrlStays(dir, f, urls, n);
      }
    }
  }

  method ReadSidecars(dir: seq<DirEntry>) returns (urls: map<string, string>)
    ensures UrlsTold(dir, urls)
  {
    urls := map[];
    for i := 0 to |dir|
      invariant UrlsTold(dir[..i], urls)
    {
      var f := dir[i];
      assert dir[..i + 1] == dir[..i] + [f];
      var trimmed := Trim(f.text);
      if f.isFile && IsSidecarName(f.name) && trimmed != "" {
        UrlsAdd(dir[..i], f, urls);
        urls := urls[Base(f.name) := trimmed];
      } else {
        UrlsSkip(dir[..i], f, urls);
      }
    }
    assert dir[..|dir|] == dir;
  }

  /** The entries tell the files one by one. */
  ghost predicate FilesTold(entries: seq<Entry>, files: seq<DirEntry>, meta: Meta, urls: map<string, string>, max: nat) {
    |entries| == |files| && forall k :: 0 <= k < |files| ==> Tells(entries[k], files[k], meta, urls, max)
  }

  lemma FilesToldSnoc(entries: seq<Entry>, files: seq<DirEntry>, meta: Meta, urls: map<string, string>, max: nat, f: DirEntry)
    requires FilesTold(entries, files, meta, urls, max)
    ensures FilesTold(entries + [FileEntry(f, meta, urls, max)], files + [f], meta, urls, max)
  {
  }

  lemma PlainFilesSnoc(dir: seq<DirEntry>, f: DirEntry)
    ensures PlainFiles(dir + [f]) == PlainFiles(dir) + if IsPlain(f) then [f] else []
  {
    assert (dir + [f])[..|dir|] == dir;
  }

  /** What the second loop has listed of `dir`. */
  ghost predicate Listed(dir: seq<DirEntry>, meta: Meta, urls: map<string, string>, max: nat,
                         entries: seq<Entry>, total: nat, large: nat, copied: set<string>) {
    && Booked(entries, total, large, copied)
    && Names(entries) == PlainNames(dir) && copied == CopiedNames(dir, max)
    && FilesTold(entries, PlainFiles(dir), meta, urls, max)
  }

  lemma ListedSkip(dir: seq<DirEntry>, f: DirEntry, meta: Meta, urls: map<string, string>, max: nat,
                   entries: seq<Entry>, total: nat, large: nat, copied: set<string>)
    requires Listed(dir, meta, urls, max, entries, total, large, copied) && !IsPlain(f)
    ensures Listed(dir + [f], meta, urls, max, entries, total, large, copied)
  {
    NamesSnoc(dir, f, max);
    PlainFilesSnoc(dir, f);
  }

  lemma ListedAdd(dir: seq<DirEntry>, f: DirEntry, meta: Meta, urls: map<string, string>, max: nat,
                  entries: seq<Entry>, total: nat, large: nat, copied: set<string>)
    requires Listed(dir, meta, urls, max, entries, total, large, copied) && IsPlain(f) && f.name !in PlainNames(dir)
    ensures Listed(dir + [f], meta, urls, max, entries + [FileEntry(f, meta, urls, max)], total + 1,
                   large + (if f.size > max then 1 else 0), copied + if f.size > max then {} else {f.name})
  {
    NamesSnoc(dir, f, max);
    PlainFilesSnoc(dir, f);
    Book(entries, total, large, copied, FileEntry(f, meta, urls, max));
    FilesToldSnoc(entries, PlainFiles(dir), meta, urls, max, f);
  }

  method ListFiles(dir: seq<DirEntry>, meta: Meta, urls: map<string, string>, max: nat)
    returns (entries: seq<Entry>, total: nat, large: nat, copied: set<string>)
    requires DistinctFiles(dir)
    ensures Listed(dir, meta, urls, max, entries, total, large, copied)
  {
    entries, total, large, copied := [], 0, 0, {};
    for i := 0 to |dir|
      invariant Listed(dir[..i], meta, urls, max, entries, total, large, copied)
    {
      var f := dir[i];
      assert dir[..i + 1] == dir[..i] + [f];
      if IsPlain(f) {
        NotListedYet(dir, i);
        ListedAdd(dir[..i], f, meta, urls, max, entries, total, large, copied);
        assert copied + {} == copied;
        if f.size > max {
          large := large + 1;
        } else {
          copied := copied + {f.name};
        }
        total := total + 1;
        entries := entries + [FileEntry(f, meta, urls, max)];
      } else {
        ListedSkip(dir[..i], f, meta, urls, max, entries, total, large, copied);
      }
    }
    assert dir[..|dir|] == dir;
  }

  lemma NotListedYet(dir: seq<DirEntry>, i: nat)
    requires DistinctFiles(dir) && i < |dir|
    ensures dir[i].name !in PlainNames(dir[..i])
  {
  }

  lemma LinkStep(entries: seq<Entry>, total: nat, large: nat, copied: set<string>, e: Entry, todo: set<string>)
    requires Booked(entries, total, large, copied)
    requires e.fileName in todo && todo !! Names(entries) && e.storage == Azure
    ensures Booked(entries + [e], total + 1, large + 1, copied)
    ensures todo - {e.fileName} !! Names(entries + [e])
    ensures Names(entries + [e]) + (todo - {e.fileName}) == Names(entries) + todo
  {
  }

  /** After the entries `listed` come entries for links. */
  ghost predicate LinksFollow(listed: seq<Entry>, entries: seq<Entry>, meta: Meta, urls: map<string, string>) {
    listed <= entries && forall k :: |listed| <= k < |entries| ==> TellsLink(entries[k], meta, urls)
  }

  lemma LinkFollows(listed: seq<Entry>, entries: seq<Entry>, meta: Meta, urls: map<string, string>, name: string)
    requires LinksFollow(listed, entries, meta, urls) && name in urls
    ensures LinksFollow(listed, entries + [LinkEntry(name, urls[name], meta)], meta, urls)
  {
  }

  /** Third loop: linked names that no file was listed under. */
  method ListLinks(listed: seq<Entry>, total0: nat, large0: nat, copied: set<string>, urls: map<string, string>,
                   ghost dir: seq<DirEntry>, meta: Meta)
    returns (entries: seq<Entry>, total: nat, large: nat)
    requires Booked(listed, total0, large0, copied) && Names(listed) == PlainNames(dir)
    ensures Booked(entries, total, large, copied) && Names(entries) == PlainNames(dir) + urls.Keys
    ensures LinksFollow(listed, entries, meta, urls)
  {
    entries, total, large := listed, total0, large0;
    var todo := urls.Keys - Names(listed);
    while todo != {}
      invariant todo <= urls.Keys - PlainNames(dir) && todo !! Names(entries)
      invariant Booked(entries, total, large, copied) && Names(entries) + todo == PlainNames(dir) + urls.Keys
      invariant LinksFollow(listed, entries, meta, urls)
      decreases |todo|
    {
      var name :| name in todo;
      var e := LinkEntry(name, urls[name], meta);
      LinkStep(entries, total, large, copied, e, todo);
      LinkFollows(listed, entries, meta, urls, name);
      entries, total, large := entries + [e], total + 1, large + 1;
      todo := todo - {name};
    }
  }

  /** First the files of the directory in its order, then the linked names. */
  ghost predicate ManifestTold(entries: seq<Entry>, files: seq<DirEntry>, meta: Meta, urls: map<string, string>, max: nat) {
    && |files| <= |entries| && FilesTold(entries[..|files|], files, meta, urls, max)
    && forall k :: |files| <= k < |entries| ==> TellsLink(entries[k], meta, urls)
  }

  /**
   * The manifest: every plain file and every linked name appears once; `total` counts the entries, `large` those
   * stored in Azure, and the local entries are exactly the files copied, those within the size limit. `urls` are
   * the trimmed texts of the sidecars.
   */
  method HydrateAttachments(incoming: Option<seq<DirEntry>>, meta: Meta, max: nat)
    returns (entries: seq<Entry>, total: nat, large: nat, copied: set<string>, ghost urls: map<string, string>)
    requires incoming.Some? ==> DistinctFiles(incoming.value)
    ensures incoming == None ==> entries == []
    ensures incoming.Some? ==>
              && Names(entries) == PlainNames(incoming.value) + LinkedNames(incoming.value)
              && copied == CopiedNames(incoming.value, max)
              && UrlsTold(incoming.value, urls)
              && ManifestTold(entries, PlainFiles(incoming.value), meta, urls, max)
    ensures DistinctNames(entries) && total == |entries| && large == CountAzure(entries)
    ensures copied == NamesIn(entries, Local)
  {
    if incoming == None {
      return [], 0, 0, {}, map[];
    }
    var dir := incoming.value;
    var links := ReadSidecars(dir);
    urls := links;
    var files;
    files, total, large, copied := ListFiles(dir, meta, links, max);
    entries, total, large := ListLinks(files, total, large, copied, links, dir, meta);
    assert entries[..|files|] == files;
  }
}
