/** core/publisher.py: building the WordPress post for a draft. The HTTP
    exchanges and the clock are parameters: every request the service would
    send is returned, and the reply to each is supplied by the caller. */
module Publisher {
  import opened Wrappers
  import opened Text
  import opened Paths
  import opened News

  const DefaultSiteUrl := "https://huelvatv.com/wp-json/wp/v2"
  const NoCredentialsMessage := "Credenciales de WordPress no configuradas."

  /** HTTP basic credentials. */
  datatype Auth = Auth(user: Option<string>, password: string)

  /** The state `PublisherService.__init__` builds from the environment. */
  datatype Service = Service(siteUrl: string, auth: Option<Auth>)

  /** `s.replace(c, "")` for one character. */
  function RemoveChar(s: string, c: char): (r: string)
    ensures c !in r
    ensures |r| <= |s|
    ensures c !in s ==> r == s
    ensures multiset(r) == multiset(s)[c := 0]
  {
    if s == [] then []
    else
      assert s == [s[0]] + s[1..];
      if s[0] == c then RemoveChar(s[1..], c)
      else [s[0]] + RemoveChar(s[1..], c)
  }

  /** One character is kept unless it is the one removed. */
  lemma RemoveCharOne(x: char, c: char)
    ensures RemoveChar([x], c) == if x == c then [] else [x]
  {
    assert [x][1..] == [];
  }

  /** Removal works piece by piece, so the characters kept stay in order. */
  lemma {:induction false} RemoveCharAppend(a: string, b: string, c: char)
    ensures RemoveChar(a + b, c) == RemoveChar(a, c) + RemoveChar(b, c)
  {
    if a == [] {
      assert a + b == b;
    } else {
      assert (a + b)[0] == a[0];
      assert (a + b)[1..] == a[1..] + b;
      RemoveCharAppend(a[1..], b, c);
    }
  }

  /** The credentials: present only when a non-empty password is set, and
      then with every space removed from the password. */
  function MakeAuth(user: Option<string>, password: Option<string>): (r: Option<Auth>)
    ensures r.Some? <==> password.Some? && password.value != []
    ensures r.Some? ==> r.value.user == user && ' ' !in r.value.password
    ensures r.Some? ==> r.value.password == RemoveChar(password.value, ' ')
    ensures r.Some? && ' ' !in password.value ==> r.value.password == password.value
  {
    if password.Some? && password.value != [] then Some(Auth(user, RemoveChar(password.value, ' ')))
    else None
  }

  function Getenv(env: map<string, string>, key: string): Option<string> {
    if key in env then Some(env[key]) else None
  }

  /** `PublisherService()` in the process environment `env`. */
  function Init(env: map<string, string>): (s: Service)
    ensures s.siteUrl == Getenv(env, "WP_SITE_URL").GetOr(DefaultSiteUrl)
    ensures s.auth.Some? <==> "WP_PASSWORD" in env && env["WP_PASSWORD"] != []
    ensures s.auth.Some? ==> s.auth.value.user == Getenv(env, "WP_USER")
  {
    Service(Getenv(env, "WP_SITE_URL").GetOr(DefaultSiteUrl),
            MakeAuth(Getenv(env, "WP_USER"), Getenv(env, "WP_PASSWORD")))
  }

  // ---------------------------------------------------------------- tags

  /** One record of a tag search reply; `id` is absent when the record has
      no `id` key. */
  datatype TagRecord = TagRecord(id: Option<int>)

  /** What became of one tag search: the request or the decoding of its
      reply raised, or it answered with a status and a list of records. */
  datatype TagLookup = LookupRaised | LookupReply(status: int, records: seq<TagRecord>)

  /** The id a lookup contributes: that of the first record of a 200 reply
      with at least one record; none when anything raised. */
  function AcceptedId(r: TagLookup): (id: Option<int>)
    ensures r.LookupRaised? ==> id == None
    ensures id.Some? <==> r.LookupReply? && r.status == 200 && r.records != [] && r.records[0].id.Some?
    ensures id.Some? ==> id == r.records[0].id
  {
    if r.LookupReply? && r.status == 200 && r.records != [] && r.records[0].id.Some?
    then Some(r.records[0].id.value)
    else None
  }

  /** The id list a sequence of lookups yields, in lookup order. */
  function TagIdsOf(lookups: seq<TagLookup>): (ids: seq<int>)
    ensures |ids| <= |lookups|
  {
    if lookups == [] then []
    else match AcceptedId(lookups[0])
      case Some(id) => [id] + TagIdsOf(lookups[1..])
      case None => TagIdsOf(lookups[1..])
  }

  /** Every id comes from an accepted lookup. */
  lemma {:induction false} TagIdsFromAccepted(lookups: seq<TagLookup>, id: int)
    requires id in TagIdsOf(lookups)
    ensures exists k :: 0 <= k < |lookups| && AcceptedId(lookups[k]) == Some(id)
  {
    if AcceptedId(lookups[0]) == Some(id) {
      assert AcceptedId(lookups[0]) == Some(id);
    } else {
      TagIdsFromAccepted(lookups[1..], id);
      var k :| 0 <= k < |lookups[1..]| && AcceptedId(lookups[1..][k]) == Some(id);
      assert AcceptedId(lookups[k + 1]) == Some(id);
    }
  }

  /** No tag is lost exactly when every lookup is accepted. */
  lemma {:induction false} TagIdsComplete(lookups: seq<TagLookup>)
    ensures |TagIdsOf(lookups)| == |lookups| <==>
            forall k :: 0 <= k < |lookups| ==> AcceptedId(lookups[k]).Some?
  {
    if lookups != [] {
      TagIdsComplete(lookups[1..]);
      if AcceptedId(lookups[0]).Some? {
        assert forall k :: 1 <= k < |lookups| ==> lookups[k] == lookups[1..][k - 1];
      }
    }
  }

  /** The search URL for one tag (the tag is not URL-encoded). */
  function TagSearchUrl(siteUrl: string, tag: string): string {
    siteUrl + "/tags?search=" + tag
  }

  /** One HTTP request the service sends. */
  datatype Request = TagSearch(url: string) | CreatePost(url: string, body: PostData)

  /** `_get_tag_ids(tags_list)`: one search per tag, in order, when there are
      tags and credentials; `lookups[k]` is the outcome of the k-th search. */
  method GetTagIds(service: Service, tags: seq<string>, lookups: seq<TagLookup>)
    returns (ids: seq<int>, sent: seq<Request>)
    requires |lookups| == |tags|
    ensures tags == [] || service.auth.None? ==> ids == [] && sent == []
    ensures tags != [] && service.auth.Some? ==> ids == TagIdsOf(lookups)
    ensures tags != [] && service.auth.Some? ==>
      |sent| == |tags| && forall k :: 0 <= k < |tags| ==> sent[k] == TagSearch(TagSearchUrl(service.siteUrl, tags[k]))
    ensures |ids| <= |tags|
  {
    if tags == [] || service.auth.None? {
      return [], [];
    }
    ids, sent := [], [];
    var i := 0;
    while i < |tags|
      invariant 0 <= i <= |tags|
      decreases |tags| - i
      invariant ids == TagIdsOf(lookups[..i])
      invariant |sent| == i
      invariant forall k :: 0 <= k < i ==> sent[k] == TagSearch(TagSearchUrl(service.siteUrl, tags[k]))
    {
      sent := sent + [TagSearch(TagSearchUrl(service.siteUrl, tags[i]))];
      match lookups[i] {
        case LookupRaised =>
        case LookupReply(status, records) =>
          if status == 200 && records != [] && records[0].id.Some? {
            ids := ids + [records[0].id.value];
          }
      }
      TagIdsOfSnoc(lookups[..i], lookups[i]);
      assert lookups[..i + 1] == lookups[..i] + [lookups[i]];
      i := i + 1;
    }
    assert lookups[..|tags|] == lookups;
  }

  lemma {:induction false} TagIdsOfSnoc(lookups: seq<TagLookup>, last: TagLookup)
    ensures TagIdsOf(lookups + [last]) ==
            TagIdsOf(lookups) + (if AcceptedId(last).Some? then [AcceptedId(last).value] else [])
  {
    if lookups == [] {
      assert [] + [last] == [last];
    } else {
      assert (lookups + [last])[1..] == lookups[1..] + [last];
      TagIdsOfSnoc(lookups[1..], last);
    }
  }

  // ---------------------------------------------------------------- video

  /** A moment as `datetime.now()` gives it. */
  datatype DateTime = DateTime(year: int, month: int, day: int, hour: int, minute: int, second: int) {
    predicate Valid() {
      1 <= year <= 9999 && 1 <= month <= 12 && 1 <= day <= 31
      && 0 <= hour < 24 && 0 <= minute < 60 && 0 <= second < 60
    }
  }

  function Digit(d: int): (c: char)
    requires 0 <= d < 10
    ensures '0' <= c <= '9' && c as int - '0' as int == d
  {
    ('0' as int + d) as char
  }

  /** `n` written with exactly `width` decimal digits, zero-padded. */
  function Padded(n: nat, width: nat): (r: string)
    requires n < Pow10(width)
    ensures |r| == width
    ensures forall k :: 0 <= k < |r| ==> '0' <= r[k] <= '9'
  {
    if width == 0 then [] else Padded(n / 10, width - 1) + [Digit(n % 10)]
  }

  function Pow10(k: nat): (r: nat)
    ensures r >= 1
  {
    if k == 0 then 1 else 10 * Pow10(k - 1)
  }

  /** The number a string of decimal digits denotes. */
  function DigitsValue(s: string): int
    requires forall k :: 0 <= k < |s| ==> '0' <= s[k] <= '9'
  {
    if s == [] then 0 else 10 * DigitsValue(s[..|s| - 1]) + (s[|s| - 1] as int - '0' as int)
  }

  /** Reading a padded number back gives the number. */
  lemma {:induction false} PaddedValue(n: nat, width: nat)
    requires n < Pow10(width)
    ensures DigitsValue(Padded(n, width)) == n
  {
    if width > 0 {
      assert n / 10 < Pow10(width - 1);
      PaddedValue(n / 10, width - 1);
      var r := Padded(n, width);
      assert r[..|r| - 1] == Padded(n / 10, width - 1);
      assert r[|r| - 1] as int - '0' as int == n % 10;
    }
  }

  /** `now.strftime("%m")`, `"%d"`, `"%y"` and `"%Y"`. */
  function Month2(now: DateTime): string requires now.Valid() { Padded(now.month, 2) }
  function Day2(now: DateTime): string requires now.Valid() { Padded(now.day, 2) }
  function Year2(now: DateTime): string requires now.Valid() { Padded(now.year % 100, 2) }
  function Year4(now: DateTime): string requires now.Valid() { Padded(now.year, 4) }

  /** The month table `self.meses`. */
  const Meses: map<string, string> := map[
    "01" := "ENERO", "02" := "FEBRERO", "03" := "MARZO", "04" := "ABRIL",
    "05" := "MAYO", "06" := "JUNIO", "07" := "JULIO", "08" := "AGOSTO",
    "09" := "SEPTIEMBRE", "10" := "OCTUBRE", "11" := "NOVIEMBRE", "12" := "DICIEMBRE"]

  /** Every month of a valid date has its Spanish name in the table. */
  lemma MonthInTable(now: DateTime)
    requires now.Valid()
    ensures Month2(now) in Meses
  {
    var m := Month2(now);
    assert Padded(now.month / 10, 1) == [Digit(now.month / 10)];
    assert m == [Digit(now.month / 10), Digit(now.month % 10)];
    if now.month == 1 {
      assert m == "01";
    } else if now.month == 2 {
      assert m == "02";
    } else if now.month == 3 {
      assert m == "03";
    } else if now.month == 4 {
      assert m == "04";
    } else if now.month == 5 {
      assert m == "05";
    } else if now.month == 6 {
      assert m == "06";
    } else if now.month == 7 {
      assert m == "07";
    } else if now.month == 8 {
      assert m == "08";
    } else if now.month == 9 {
      assert m == "09";
    } else if now.month == 10 {
      assert m == "10";
    } else if now.month == 11 {
      assert m == "11";
    } else {
      assert m == "12";
    }
  }

  function MonthName(now: DateTime): string
    requires now.Valid()
  {
    MonthInTable(now);
    Meses[Month2(now)]
  }

  /** The video file named after a source file: its base name, extension
      replaced by `.mp4`. */
  function VideoFilename(originalFilename: string): (r: string)
    ensures Sep !in r
    ensures r == Stem(Basename(originalFilename)) + ".mp4"
  {
    var name := Stem(Basename(originalFilename));
    SplitExtShape(Basename(originalFilename));
    assert Basename(originalFilename) == name + Ext(Basename(originalFilename));
    assert forall c :: c in name ==> c in Basename(originalFilename);
    name + ".mp4"
  }

  const VideoHost := "https://videos.huelvatv.com/"

  /** The address of the day's video, `https://videos.huelvatv.com/{YYYY}/
      NOTICIAS/{MES}/{dd-mm-yy}/{stem}.mp4`. */
  function VideoUrl(now: DateTime, originalFilename: string): string
    requires now.Valid()
  {
    DayUrl(now, VideoFilename(originalFilename))
  }

  /** The address of the file `file` in the day's video folder. */
  function DayUrl(now: DateTime, file: string): string
    requires now.Valid()
  {
    VideoHost + Year4(now) + "/NOTICIAS/" + MonthName(now) + "/"
      + Day2(now) + "-" + Month2(now) + "-" + Year2(now) + "/" + file
  }

  /** The path segments of the video address: host, year, the NOTICIAS
      folder, the month name, the day folder and the file name. */
  lemma VideoUrlSegments(now: DateTime, originalFilename: string)
    requires now.Valid()
    ensures Split(VideoUrl(now, originalFilename), Sep) == UrlSegments(now, VideoFilename(originalFilename))
  {
    var file := VideoFilename(originalFilename);
    VideoUrlIsJoin(now, file);
    UrlSegmentsHaveNoSep(now, file);
    SplitJoin(UrlSegments(now, file), Sep);
  }

  function UrlSegments(now: DateTime, file: string): seq<string>
    requires now.Valid()
  {
    ["https:", "", "videos.huelvatv.com", Year4(now), "NOTICIAS", MonthName(now),
     Day2(now) + "-" + Month2(now) + "-" + Year2(now), file]
  }

  lemma VideoUrlIsJoin(now: DateTime, file: string)
    requires now.Valid()
    ensures DayUrl(now, file) == Join(UrlSegments(now, file), [Sep])
  {
    UrlAsJoin(Year4(now), MonthName(now), Day2(now) + "-" + Month2(now) + "-" + Year2(now), file);
  }

  lemma UrlSegmentsHaveNoSep(now: DateTime, file: string)
    requires now.Valid() && Sep !in file
    ensures forall k :: 0 <= k < |UrlSegments(now, file)| ==> Sep !in UrlSegments(now, file)[k]
  {
    MonthInTable(now);
    DigitsHaveNoSep(Year4(now));
    DateFolderHasNoSep(Day2(now), Month2(now), Year2(now));
    assert Sep !in MonthName(now);
  }

  lemma HostParts()
    ensures VideoHost == "https:" + "/" + "" + "/" + "videos.huelvatv.com" + "/"
    ensures "/NOTICIAS/" == "/" + "NOTICIAS" + "/"
  {
  }

  lemma DateFolderHasNoSep(d: string, m: string, y: string)
    requires Sep !in d && Sep !in m && Sep !in y
    ensures Sep !in d + "-" + m + "-" + y
  {
  }

  lemma UrlAsJoin(year: string, month: string, dayFolder: string, file: string)
    ensures VideoHost + year + "/NOTICIAS/" + month + "/" + dayFolder + "/" + file
         == Join(["https:", "", "videos.huelvatv.com", year, "NOTICIAS", month, dayFolder, file], [Sep])
  {
    UrlJoinNested(year, month, dayFolder, file);
    HostParts();
  }

  lemma UrlJoinNested(year: string, month: string, dayFolder: string, file: string)
    ensures Join(["https:", "", "videos.huelvatv.com", year, "NOTICIAS", month, dayFolder, file], [Sep])
         == "https:" + [Sep] + ("" + [Sep] + ("videos.huelvatv.com" + [Sep] + (year + [Sep]
            + ("NOTICIAS" + [Sep] + (month + [Sep] + (dayFolder + [Sep] + file))))))
  {
    var segs := ["https:", "", "videos.huelvatv.com", year, "NOTICIAS", month, dayFolder, file];
    var s := [Sep];
    JoinCons(dayFolder, [file], s);
    assert [dayFolder] + [file] == segs[6..];
    JoinCons(month, segs[6..], s);
    assert [month] + segs[6..] == segs[5..];
    JoinCons("NOTICIAS", segs[5..], s);
    assert ["NOTICIAS"] + segs[5..] == segs[4..];
    JoinCons(year, segs[4..], s);
    assert [year] + segs[4..] == segs[3..];
    JoinCons("videos.huelvatv.com", segs[3..], s);
    assert ["videos.huelvatv.com"] + segs[3..] == segs[2..];
    JoinCons("", segs[2..], s);
    assert [""] + segs[2..] == segs[1..];
    JoinCons("https:", segs[1..], s);
    assert ["https:"] + segs[1..] == segs;
  }

  lemma DigitsHaveNoSep(s: string)
    requires forall k :: 0 <= k < |s| ==> '0' <= s[k] <= '9'
    ensures Sep !in s
  {
  }

  lemma JoinCons(a: string, rest: seq<string>, sep: string)
    requires rest != []
    ensures Join([a] + rest, sep) == a + sep + Join(rest, sep)
  {
    assert ([a] + rest)[1..] == rest;
  }

  /** Only the base name of the source matters: the directory it sits in
      does not change the video file name. */
  lemma VideoFilenameIgnoresDirectory(dir: string, name: string)
    requires Sep !in name
    ensures VideoFilename(PathJoin(dir, name)) == VideoFilename(name)
  {
    BasenameOfJoin(dir, name);
  }

  /** A name already carrying the `.mp4` video extension keeps it. */
  lemma VideoFilenameOfVideo(stem: string)
    requires Sep !in stem && !AllDots(stem)
    ensures VideoFilename(stem + ".mp4") == stem + ".mp4"
  {
    assert Sep !in stem + ".mp4";
    SplitExtOfNamed(stem, ".mp4");
  }

  /** The video block's markup before and after the address. */
  const EmbedOpen := "<figure class=\"wp-block-video\"><video src=\""
  const EmbedClose := "\" autoplay=\"autoplay\" muted=\"\" controls=\"controls\" width=\"100%\" height=\"auto\"></video></figure>"

  /** `_generate_video_embed(original_filename)` at time `now`. */
  function VideoEmbed(now: DateTime, originalFilename: string): (r: string)
    requires now.Valid()
    ensures |r| == |EmbedOpen| + |VideoUrl(now, originalFilename)| + |EmbedClose|
    ensures r[..|EmbedOpen|] == EmbedOpen && r[|r| - |EmbedClose|..] == EmbedClose
    ensures r[|EmbedOpen|..|r| - |EmbedClose|] == VideoUrl(now, originalFilename)
  {
    EmbedOpen + VideoUrl(now, originalFilename) + EmbedClose
  }

  const SeparatorHtml := "<hr class=\"wp-block-separator has-alpha-channel-opacity\"/>"

  /** The post content: the video block, a blank line, the separator, a
      blank line and then the draft's own HTML, unchanged. */
  function FinalContent(embed: string, raw: string): (r: string)
    ensures |r| == |embed| + |SeparatorHtml| + 4 + |raw|
    ensures r[..|embed|] == embed
    ensures r[|embed|..|embed| + 2 + |SeparatorHtml| + 2] == "\n\n" + SeparatorHtml + "\n\n"
    ensures r[|r| - |raw|..] == raw
  {
    embed + "\n\n" + SeparatorHtml + "\n\n" + raw
  }

  /** The JSON body of the post. */
  datatype PostData = PostData(title: string, content: string, excerpt: string, status: string, tags: seq<int>)

  /** What `publish` receives from the app: the draft and `archivo_original`. */
  datatype NewsData = NewsData(article: Article, archivoOriginal: string)

  /** The reply to the post request. `link` is absent when the reply's JSON
      has no `link`. */
  datatype PostReply = PostReply(status: int, link: Option<string>, text: string)

  /** `str(n)`: a minus sign for a negative number, then its decimal digits. */
  function IntToString(n: int): (r: string)
    ensures r != []
    ensures n < 0 <==> r[0] == '-'
    ensures forall k :: (if n < 0 then 1 else 0) <= k < |r| ==> '0' <= r[k] <= '9'
  {
    if n < 0 then "-" + NatToString(-n) else NatToString(n)
  }

  /** The value of a decimal numeral with an optional leading minus sign. */
  function SignedValue(s: string): int
    requires s != []
    requires forall k :: (if s[0] == '-' then 1 else 0) <= k < |s| ==> '0' <= s[k] <= '9'
  {
    if s[0] == '-' then -DigitsValue(s[1..]) else DigitsValue(s)
  }

  /** Printing a status code is faithful: the text reads back as the number. */
  lemma IntToStringValue(n: int)
    ensures SignedValue(IntToString(n)) == n
  {
    if n < 0 {
      NatToStringValue(-n);
      assert IntToString(n)[1..] == NatToString(-n);
    } else {
      NatToStringValue(n);
    }
  }

  function NatToString(n: nat): (r: string)
    ensures r != []
    ensures forall k :: 0 <= k < |r| ==> '0' <= r[k] <= '9'
  {
    if n < 10 then [Digit(n)] else NatToString(n / 10) + [Digit(n % 10)]
  }

  /** Decimal printing is faithful: the digits read back as the number. */
  lemma {:induction false} NatToStringValue(n: nat)
    ensures DigitsValue(NatToString(n)) == n
  {
    if n >= 10 {
      NatToStringValue(n / 10);
      var r := NatToString(n);
      assert r[..|r| - 1] == NatToString(n / 10);
    }
  }

  /** `publish(news_data)` at time `now`: no request at all without
      credentials; otherwise the tag searches in tag order, then one post
      whose status is `pending`, whose title and excerpt are the draft's and
      whose content is the video block followed by the draft's HTML. Only a
      201 reply is a success, and it yields the returned link. */
  method Publish(service: Service, news: NewsData, now: DateTime,
                 lookups: seq<TagLookup>, reply: PostReply)
    returns (sent: seq<Request>, outcome: Result<Option<string>>)
    requires now.Valid()
    requires |lookups| == |news.article.etiquetas|
    ensures service.auth.None? ==> sent == [] && outcome == Err(NoCredentialsMessage)
    ensures service.auth.Some? ==>
      var tags := news.article.etiquetas;
      var ids := if tags == [] then [] else TagIdsOf(lookups);
      |sent| == |tags| + 1
      && (forall k :: 0 <= k < |tags| ==> sent[k] == TagSearch(TagSearchUrl(service.siteUrl, tags[k])))
      && sent[|tags|] == CreatePost(service.siteUrl + "/posts",
           PostData(news.article.titulo,
                    FinalContent(VideoEmbed(now, news.archivoOriginal), news.article.contenido),
                    news.article.entradilla, "pending", ids))
    ensures service.auth.Some? ==> (outcome.Ok? <==> reply.status == 201)
    ensures outcome.Ok? ==> outcome.value == reply.link
    ensures service.auth.Some? && reply.status != 201 ==>
      outcome == Err("HTTP " + IntToString(reply.status) + ": " + reply.text)
  {
    if service.auth.None? {
      return [], Err(NoCredentialsMessage);
    }
    var a := news.article;
    var tagsIds, searches := GetTagIds(service, a.etiquetas, lookups);
    var bloqueVideo := VideoEmbed(now, news.archivoOriginal);
    var contenidoFinal := FinalContent(bloqueVideo, a.contenido);
    var postData := PostData(a.titulo, contenidoFinal, a.entradilla, "pending", tagsIds);
    sent := searches + [CreatePost(service.siteUrl + "/posts", postData)];
    if reply.status == 201 {
      outcome := Ok(reply.link);
    } else {
      outcome := Err("HTTP " + IntToString(reply.status) + ": " + reply.text);
    }
  }
}
