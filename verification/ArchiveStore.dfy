/** Content-addressed archival: an object store written first, a table of rows written second. */
module ArchiveStore {
  import opened Wrappers
  import opened Text
  import opened Calendar
  import opened ArchiveUri

  datatype Request = Request(family: string, sourceUrl: string, capturedAt: CapturedAt, content: Content,
                             contentType: string, extensionHint: Option<string>, ingestRun: int, tier: int)

  datatype Row = Row(digest: string, uri: string, byteSize: nat, tier: int,
                     sourceUrl: string, contentType: string, ingestRun: int)

  datatype ArchiveError = BadFamily | BadTier | BadUri

  predicate RequestOk(req: Request) {
    && KnownFamily(req.family) && req.tier in {1, 2, 3}
    && (req.capturedAt.Aware? ==> ValidDate(req.capturedAt.utcDate))
  }

  /**
   * What the archiver needs to know of digests and URIs: the hash of some content, the URI under which
   * a request is stored (None if building or storing raises), and the digest that a stored URI names.
   */
  datatype Layout = Layout(hash: Content -> string, target: Request -> Option<string>, named: string -> Option<string>)

  ghost predicate LayoutOk(l: Layout) {
    forall req: Request | RequestOk(req) && l.target(req).Some? :: l.named(l.target(req).value) == Some(l.hash(req.content))
  }

  // ---- Extensions ----

  function BeforeSemicolon(s: string): string {
    if s == "" || s[0] == ';' then "" else [s[0]] + BeforeSemicolon(s[1..])
  }

  /** The extension for a Content-Type header; unknown types are binary. */
  function GuessedExtension(lower: string -> string, contentType: string): string {
    var base := lower(Strip(BeforeSemicolon(contentType)));
    if base == "application/json" then "json"
    else if base == "application/xml" then "xml"
    else if base == "application/pdf" then "pdf"
    else if base == "text/html" then "html"
    else if base == "text/xml" then "xml"
    else if base == "text/csv" then "csv"
    else if base == "text/plain" then "txt"
    else "bin"
  }

  /** `extension_hint or extension_from_content_type(...)` */
  function ExtensionFor(lower: string -> string, req: Request): string {
    if req.extensionHint.Some? && req.extensionHint.value != "" then req.extensionHint.value
    else GuessedExtension(lower, req.contentType)
  }

  /** Lower-casing leaves lower-case letters and digits alone. */
  ghost predicate GoodLower(lower: string -> string) {
    forall e: string | ExtensionOk(e) :: lower(e) == e
  }

  /** Whatever the header says, the guessed extension is accepted as it is, so the URI can be built. */
  lemma GuessIsNormalized(lower: string -> string, contentType: string)
    requires GoodLower(lower)
    ensures var ext := GuessedExtension(lower, contentType); NormalizeExtension(lower, ext) == Some(ext)
  {
    PlainExtension(lower, GuessedExtension(lower, contentType));
  }

  // ---- The layout of the archive ----

  /** The configured bucket and the library functions the archiver calls. */
  datatype Config = Config(hash: Content -> string, lower: string -> string, digits: DigitTable, bucket: string)

  ghost predicate ConfigOk(cfg: Config) {
    GoodDigits(cfg.digits) && HexDigest(cfg.hash)
  }

  function BuildFor(cfg: Config, req: Request): Result<string, BuildError> {
    Build(cfg.hash, cfg.lower, cfg.bucket, req.family, req.capturedAt, req.content, ExtensionFor(cfg.lower, req))
  }

  /** The URI that is built for a request, if it is built, parses again, and names the configured bucket. */
  function TargetUri(cfg: Config, req: Request): Option<string> {
    match BuildFor(cfg, req)
    case Err(_) => None
    case Ok(uri) =>
      match Parse(cfg.digits, uri)
      case Err(_) => None
      case Ok(coord) => if coord.bucket == cfg.bucket then Some(ArchiveUri.Print(coord)) else None
  }

  function NamedDigest(cfg: Config, uri: string): Option<string> {
    match Parse(cfg.digits, uri)
    case Err(_) => None
    case Ok(coord) => Some(coord.sha256)
  }

  function ArchiveLayout(cfg: Config): Layout {
    Layout(cfg.hash, (req: Request) => TargetUri(cfg, req), (uri: string) => NamedDigest(cfg, uri))
  }

  /** The key derived from the parsed URI is the built URI itself, and it names the digest of the content. */
  lemma TargetNamesDigest(cfg: Config, req: Request)
    requires ConfigOk(cfg) && RequestOk(req) && TargetUri(cfg, req).Some?
    ensures BuildFor(cfg, req) == Ok(TargetUri(cfg, req).value)
    ensures NamedDigest(cfg, TargetUri(cfg, req).value) == Some(cfg.hash(req.content))
  {
    BuildParses(cfg.digits, cfg.hash, cfg.lower, cfg.bucket, req.family, req.capturedAt.utcDate, req.content,
                ExtensionFor(cfg.lower, req));
  }

  /** When a well-formed request can be stored at all: it is never the guessed extension that prevents it. */
  lemma WhenStorable(cfg: Config, req: Request)
    requires ConfigOk(cfg) && GoodLower(cfg.lower) && RequestOk(req)
    ensures TargetUri(cfg, req).Some? <==>
              && req.capturedAt.Aware? && BucketOk(cfg.bucket)
              && (req.extensionHint.Some? && req.extensionHint.value != "" ==>
                    NormalizeExtension(cfg.lower, req.extensionHint.value).Some?)
  {
    GuessIsNormalized(cfg.lower, req.contentType);
    if BuildFor(cfg, req).Ok? {
      BuildParses(cfg.digits, cfg.hash, cfg.lower, cfg.bucket, req.family, req.capturedAt.utcDate, req.content,
                  ExtensionFor(cfg.lower, req));
    }
  }

  /** What is assumed of a layout below holds of the archive's own, for every configuration. */
  lemma ArchiveLayoutOk(cfg: Config)
    requires ConfigOk(cfg)
    ensures LayoutOk(ArchiveLayout(cfg))
  {
    var l := ArchiveLayout(cfg);
    forall req: Request | RequestOk(req) && l.target(req).Some?
      ensures l.named(l.target(req).value) == Some(l.hash(req.content))
    {
      TargetNamesDigest(cfg, req);
    }
  }

  // ---- The two stores ----

  /** The row with this digest, if there is one. */
  function FindRow(rows: seq<Row>, digest: string): (r: Option<Row>)
    ensures r.Some? ==> r.value in rows && r.value.digest == digest
    ensures r.None? ==> forall row | row in rows :: row.digest != digest
  {
    if rows == [] then None
    else if rows[|rows| - 1].digest == digest then Some(rows[|rows| - 1])
    else
      assert rows == rows[..|rows| - 1] + [rows[|rows| - 1]];
      FindRow(rows[..|rows| - 1], digest)
  }

  function NewRow(l: Layout, req: Request, uri: string): Row {
    Row(l.hash(req.content), uri, |req.content|, req.tier, req.sourceUrl, req.contentType, req.ingestRun)
  }

  /** An existing row as it is returned: the first call's fields, with this call's type if that one had none. */
  function Recalled(row: Row, req: Request): Row {
    row.(contentType := if row.contentType == "" then req.contentType else row.contentType)
  }

  /** The object at every key has the digest that the key names. */
  ghost predicate ObjectsMatchKeys(l: Layout, objects: map<string, Content>) {
    forall key | key in objects ::
      l.named(key) == Some(l.hash(objects[key]))
  }

  /** No digest has two rows, and every row's URI names its digest and has an object. */
  ghost predicate RowsHaveObjects(l: Layout, objects: map<string, Content>, rows: seq<Row>) {
    && (forall i, j :: 0 <= i < j < |rows| ==> rows[i].digest != rows[j].digest)
    && (forall row | row in rows ::
          row.uri in objects && l.named(row.uri) == Some(row.digest))
  }

  class Archive {
    var objects: map<string, Content>
    var rows: seq<Row>

    constructor ()
      ensures objects == map[] && rows == []
    {
      objects, rows := map[], [];
    }

    ghost predicate Valid(l: Layout)
      reads this
    {
      ObjectsMatchKeys(l, objects) && RowsHaveObjects(l, objects, rows)
    }

    /** One call that nobody interferes with. `created` tells whether the row is new. */
    method ArchivePayload(l: Layout, req: Request) returns (r: Result<Row, ArchiveError>, created: bool)
      requires LayoutOk(l) && Valid(l)
      requires req.capturedAt.Aware? ==> ValidDate(req.capturedAt.utcDate)
      modifies this
      ensures Valid(l)
      ensures !KnownFamily(req.family) ==> r == Err(BadFamily)
      ensures KnownFamily(req.family) && req.tier !in {1, 2, 3} ==> r == Err(BadTier)
      ensures r.Ok? && !created ==>
                && FindRow(old(rows), l.hash(req.content)).Some?
                && r.value == Recalled(FindRow(old(rows), l.hash(req.content)).value, req)
                && var was := FindRow(old(rows), l.hash(req.content)).value;
                   && (was.contentType != "" ==> r.value == was)
                   && (was.contentType == "" ==> r.value == was.(contentType := req.contentType))
      ensures r.Ok? && created ==>
                && FindRow(old(rows), l.hash(req.content)).None?
                && l.target(req) == Some(r.value.uri) && r.value == NewRow(l, req, r.value.uri)
                && objects == old(objects)[r.value.uri := req.content] && rows == old(rows) + [r.value]
                && r.value.digest == l.hash(req.content) && r.value.byteSize == |req.content| && r.value.tier == req.tier
                && r.value.sourceUrl == req.sourceUrl && r.value.contentType == req.contentType
                && r.value.ingestRun == req.ingestRun
      ensures r.Err? || !created ==> objects == old(objects) && rows == old(rows)
      ensures r == Err(BadUri) <==>
                && KnownFamily(req.family) && req.tier in {1, 2, 3}
                && FindRow(old(rows), l.hash(req.content)).None? && l.target(req).None?
    {
      created := false;
      if !KnownFamily(req.family) {
        return Err(BadFamily), false;
      }
      if req.tier !in {1, 2, 3} {
        return Err(BadTier), false;
      }
      var digest := l.hash(req.content);
      var existing := FindRow(rows, digest);
      if existing.Some? {
        return Ok(Recalled(existing.value, req)), false;
      }
      var uri := l.target(req);
      if uri.None? {
        return Err(BadUri), false;
      }
      objects := objects[uri.value := req.content];
      var row := Row(digest, uri.value, |req.content|, req.tier, req.sourceUrl, req.contentType, req.ingestRun);
      rows := rows + [row];
      r, created := Ok(row), true;
    }
  }

  // ---- Interleaved archivers ----

  type Pid = nat

  /** Between its statements an archiver has either found no row yet, or stored the object. */
  datatype Work = Missed(req: Request) | Stored(req: Request, uri: string)

  datatype State = State(objects: map<string, Content>, rows: seq<Row>, working: map<Pid, Work>)

  datatype Step =
    | Find(pid: Pid, req: Request)
    | Put(pid: Pid)
    | Insert(pid: Pid)
    | Crash(pid: Pid)

  ghost predicate Next(l: Layout, s: State, step: Step, s': State) {
    match step
    case Find(pid, req) =>
      && pid !in s.working && RequestOk(req)
      && s' == if FindRow(s.rows, l.hash(req.content)).Some? then s else s.(working := s.working[pid := Missed(req)])
    case Put(pid) =>
      && pid in s.working && s.working[pid].Missed?
      && var req := s.working[pid].req;
         s' == (match l.target(req)
                case None => s.(working := s.working - {pid})
                case Some(uri) =>
                  s.(objects := s.objects[uri := req.content], working := s.working[pid := Stored(req, uri)]))
    case Insert(pid) =>
      && pid in s.working && s.working[pid].Stored?
      && var row := NewRow(l, s.working[pid].req, s.working[pid].uri);
         s' == s.(working := s.working - {pid},
                  rows := if FindRow(s.rows, row.digest).Some? then s.rows else s.rows + [row])
    case Crash(pid) =>
      pid in s.working && s' == s.(working := s.working - {pid})
  }

  ghost predicate IsRun(l: Layout, states: seq<State>, steps: seq<Step>) {
    && |states| == |steps| + 1
    && states[0] == State(map[], [], map[])
    && forall i | 0 <= i < |steps| :: Next(l, states[i], steps[i], states[i + 1])
  }

  ghost predicate Consistent(l: Layout, s: State) {
    && ObjectsMatchKeys(l, s.objects)
    && RowsHaveObjects(l, s.objects, s.rows)
    && (forall pid | pid in s.working :: RequestOk(s.working[pid].req))
    && (forall pid | pid in s.working && s.working[pid].Stored? ::
          s.working[pid].uri in s.objects && l.named(s.working[pid].uri) == Some(l.hash(s.working[pid].req.content)))
  }

  lemma ConsistentStep(l: Layout, s: State, step: Step, s': State)
    requires LayoutOk(l) && Consistent(l, s) && Next(l, s, step, s')
    ensures Consistent(l, s')
  {
  }

  /**
   * However archivers interleave and wherever they die: at most one row per digest, every row's URI has
   * an object, and every object hashes to the digest in its key, also after its key was written again.
   */
  lemma {:induction false} ArchiveSafety(l: Layout, states: seq<State>, steps: seq<Step>, i: nat)
    requires LayoutOk(l) && IsRun(l, states, steps) && i <= |steps|
    ensures Consistent(l, states[i])
  {
    if i > 0 {
      ArchiveSafety(l, states, steps, i - 1);
      assert Next(l, states[i - 1], steps[i - 1], states[i]);
      ConsistentStep(l, states[i - 1], steps[i - 1], states[i]);
    }
  }

  lemma {:induction false} KeysAreKept(l: Layout, states: seq<State>, steps: seq<Step>, i: nat, j: nat, key: string)
    requires IsRun(l, states, steps) && i <= j <= |steps| && key in states[i].objects
    ensures key in states[j].objects
  {
    if i < j {
      KeysAreKept(l, states, steps, i, j - 1, key);
      assert Next(l, states[j - 1], steps[j - 1], states[j]);
    }
  }

  /**
   * The conventions demand an error when content with another digest arrives at an existing key. The
   * code has no such check and needs none: no object is lost, and a rewrite never changes its digest.
   */
  lemma RewritesKeepTheDigest(l: Layout, states: seq<State>, steps: seq<Step>, i: nat, j: nat, key: string)
    requires LayoutOk(l) && IsRun(l, states, steps) && i <= j <= |steps| && key in states[i].objects
    ensures key in states[j].objects
    ensures l.hash(states[j].objects[key]) == l.hash(states[i].objects[key])
  {
    KeysAreKept(l, states, steps, i, j, key);
    ArchiveSafety(l, states, steps, i);
    ArchiveSafety(l, states, steps, j);
    assert l.named(key) == Some(l.hash(states[i].objects[key]));
  }

  lemma FindRowAppend(rows: seq<Row>, row: Row, digest: string)
    ensures FindRow(rows + [row], digest) == if row.digest == digest then Some(row) else FindRow(rows, digest)
  {
    assert (rows + [row])[..|rows|] == rows;
  }

  /** Once a digest has a row, every later look-up finds that same row: equal bytes give the same record. */
  lemma {:induction false} RecordIsStable(l: Layout, states: seq<State>, steps: seq<Step>, i: nat, j: nat, digest: string)
    requires IsRun(l, states, steps) && i <= j <= |steps|
    requires FindRow(states[i].rows, digest).Some?
    ensures FindRow(states[j].rows, digest) == FindRow(states[i].rows, digest)
  {
    if i < j {
      RecordIsStable(l, states, steps, i, j - 1, digest);
      assert Next(l, states[j - 1], steps[j - 1], states[j]);
      RecordKept(l, states[j - 1], steps[j - 1], states[j], digest);
    }
  }

  lemma RecordKept(l: Layout, s: State, step: Step, s': State, digest: string)
    requires Next(l, s, step, s') && FindRow(s.rows, digest).Some?
    ensures FindRow(s'.rows, digest) == FindRow(s.rows, digest)
  {
    if step.Insert? {
      FindRowAppend(s.rows, NewRow(l, s.working[step.pid].req, s.working[step.pid].uri), digest);
    } else {
      assert s'.rows == s.rows;
    }
  }

  // ---- How often an object is written ----

  predicate HoldsStored(l: Layout, s: State, pid: Pid, digest: string) {
    pid in s.working && s.working[pid].Stored? && l.hash(s.working[pid].req.content) == digest
  }

  /** The archivers that have stored content with this digest and not yet tried to insert its row. */
  function InFlight(l: Layout, s: State, digest: string): set<Pid> {
    set pid | pid in s.working && HoldsStored(l, s, pid, digest)
  }

  /** The step writes an object with this digest. */
  predicate Writes(l: Layout, s: State, step: Step, digest: string) {
    && step.Put? && step.pid in s.working && s.working[step.pid].Missed?
    && l.hash(s.working[step.pid].req.content) == digest && l.target(s.working[step.pid].req).Some?
  }

  /** The step abandons a stored object without a row of its own: a crash, or a row that came first. */
  predicate Abandons(l: Layout, s: State, step: Step, digest: string) {
    || (step.Crash? && HoldsStored(l, s, step.pid, digest))
    || (step.Insert? && HoldsStored(l, s, step.pid, digest) && FindRow(s.rows, digest).Some?)
  }

  function Puts(l: Layout, states: seq<State>, steps: seq<Step>, n: nat, digest: string): nat
    requires n <= |steps| && |states| == |steps| + 1
  {
    if n == 0 then 0
    else Puts(l, states, steps, n - 1, digest) + if Writes(l, states[n - 1], steps[n - 1], digest) then 1 else 0
  }

  function Losses(l: Layout, states: seq<State>, steps: seq<Step>, n: nat, digest: string): nat
    requires n <= |steps| && |states| == |steps| + 1
  {
    if n == 0 then 0
    else Losses(l, states, steps, n - 1, digest) + if Abandons(l, states[n - 1], steps[n - 1], digest) then 1 else 0
  }

  function RowCount(s: State, digest: string): nat {
    if FindRow(s.rows, digest).Some? then 1 else 0
  }

  lemma InFlightWithout(l: Layout, s: State, s': State, pid: Pid, digest: string)
    requires s'.working == s.working - {pid}
    ensures |InFlight(l, s', digest)| == |InFlight(l, s, digest)| - if HoldsStored(l, s, pid, digest) then 1 else 0
  {
    assert InFlight(l, s', digest) == InFlight(l, s, digest) - {pid};
  }

  lemma InFlightWith(l: Layout, s: State, s': State, pid: Pid, work: Work, digest: string)
    requires s'.working == s.working[pid := work] && !HoldsStored(l, s, pid, digest)
    ensures |InFlight(l, s', digest)| == |InFlight(l, s, digest)| + if HoldsStored(l, s', pid, digest) then 1 else 0
  {
    assert pid !in InFlight(l, s, digest);
    if HoldsStored(l, s', pid, digest) {
      assert InFlight(l, s', digest) == InFlight(l, s, digest) + {pid};
    } else {
      assert InFlight(l, s', digest) == InFlight(l, s, digest);
    }
  }

  lemma StepAccounting(l: Layout, s: State, step: Step, s': State, digest: string)
    requires Next(l, s, step, s')
    ensures |InFlight(l, s', digest)| + RowCount(s', digest) + (if Abandons(l, s, step, digest) then 1 else 0)
              == |InFlight(l, s, digest)| + RowCount(s, digest) + (if Writes(l, s, step, digest) then 1 else 0)
  {
    match step {
      case Find(pid, req) =>
        if s' != s {
          InFlightWith(l, s, s', pid, Missed(req), digest);
        }
      case Put(pid) =>
        var req := s.working[pid].req;
        if l.target(req).Some? {
          InFlightWith(l, s, s', pid, Stored(req, l.target(req).value), digest);
        } else {
          InFlightWithout(l, s, s', pid, digest);
        }
      case Insert(pid) =>
        FindRowAppend(s.rows, NewRow(l, s.working[pid].req, s.working[pid].uri), digest);
        InFlightWithout(l, s, s', pid, digest);
      case Crash(pid) =>
        InFlightWithout(l, s, s', pid, digest);
    }
  }

  /** Every write of an object is accounted for: it is still in flight, it got the row, or it was abandoned. */
  lemma {:induction false} PutAccounting(l: Layout, states: seq<State>, steps: seq<Step>, n: nat, digest: string)
    requires IsRun(l, states, steps) && n <= |steps|
    ensures Puts(l, states, steps, n, digest) ==
              |InFlight(l, states[n], digest)| + RowCount(states[n], digest) + Losses(l, states, steps, n, digest)
  {
    if n == 0 {
      assert InFlight(l, states[0], digest) == {};
    } else {
      PutAccounting(l, states, steps, n - 1, digest);
      assert Next(l, states[n - 1], steps[n - 1], states[n]);
      StepAccounting(l, states[n - 1], steps[n - 1], states[n], digest);
    }
  }

  predicate Names(l: Layout, key: string, digest: string) {
    l.named(key) == Some(digest)
  }

  ghost predicate HasObject(l: Layout, s: State, digest: string) {
    exists key :: key in s.objects && Names(l, key, digest)
  }

  lemma ObjectStep(l: Layout, s: State, step: Step, s': State, digest: string)
    requires LayoutOk(l) && Consistent(l, s) && Next(l, s, step, s')
    ensures HasObject(l, s', digest) <==> HasObject(l, s, digest) || Writes(l, s, step, digest)
  {
    if step.Put? && l.target(s.working[step.pid].req).Some? {
      var req := s.working[step.pid].req;
      var uri := l.target(req).value;
      assert l.named(uri) == Some(l.hash(req.content));
      assert s'.objects == s.objects[uri := req.content];
      if HasObject(l, s, digest) {
        var key :| key in s.objects && Names(l, key, digest);
        assert key in s'.objects;
      }
      if Writes(l, s, step, digest) {
        assert uri in s'.objects && Names(l, uri, digest);
      }
    } else {
      assert s'.objects == s.objects;
    }
  }

  /** A digest has been written in a run if and only if the store holds an object under a key that names it. */
  lemma {:induction false} WrittenMeansStored(l: Layout, states: seq<State>, steps: seq<Step>, n: nat, digest: string)
    requires LayoutOk(l) && IsRun(l, states, steps) && n <= |steps|
    ensures Puts(l, states, steps, n, digest) > 0 <==> HasObject(l, states[n], digest)
  {
    if n > 0 {
      WrittenMeansStored(l, states, steps, n - 1, digest);
      ArchiveSafety(l, states, steps, n - 1);
      assert Next(l, states[n - 1], steps[n - 1], states[n]);
      ObjectStep(l, states[n - 1], steps[n - 1], states[n], digest);
    }
  }

  /**
   * The documentation promises that the object is written at most once. A write keeps the promise
   * exactly when the store holds no object under a key that names its digest; the archiver asks the
   * table of rows instead, which also lacks a row while another archiver is between its two writes, or
   * after one was lost there.
   */
  lemma FirstWrite(l: Layout, states: seq<State>, steps: seq<Step>, n: nat, digest: string)
    requires LayoutOk(l) && IsRun(l, states, steps) && n < |steps| && Writes(l, states[n], steps[n], digest)
    ensures Puts(l, states, steps, n + 1, digest) == 1 <==>
              forall key | key in states[n].objects :: l.named(key) != Some(digest)
    ensures HasObject(l, states[n], digest) <==>
              || FindRow(states[n].rows, digest).Some?
              || InFlight(l, states[n], digest) != {}
              || Losses(l, states, steps, n, digest) > 0
  {
    PutAccounting(l, states, steps, n, digest);
    WrittenMeansStored(l, states, steps, n, digest);
    assert HasObject(l, states[n], digest) <==>
           !(forall key | key in states[n].objects :: l.named(key) != Some(digest)) by {
      assert forall key :: Names(l, key, digest) <==> l.named(key) == Some(digest);
    }
  }

  /** The promise fails after a crash between the two writes: the next call writes the object again. */
  lemma CrashCausesSecondWrite(l: Layout, req: Request) returns (states: seq<State>, steps: seq<Step>)
    requires RequestOk(req) && l.target(req).Some?
    ensures IsRun(l, states, steps)
    ensures Puts(l, states, steps, |steps|, l.hash(req.content)) == 2
  {
    var uri, digest := l.target(req).value, l.hash(req.content);
    var s0 := State(map[], [], map[]);
    var s1 := s0.(working := map[0 := Missed(req)]);
    var s2 := State(map[uri := req.content], [], map[0 := Stored(req, uri)]);
    var s3 := s2.(working := map[]);
    var s4 := s3.(working := map[0 := Missed(req)]);
    states := [s0, s1, s2, s3, s4, s2];
    steps := [Find(0, req), Put(0), Crash(0), Find(0, req), Put(0)];
    assert Next(l, s0, steps[0], s1);
    assert Next(l, s1, steps[1], s2);
    assert Next(l, s2, steps[2], s3) by {
      assert s2.working - {0} == map[];
    }
    assert Next(l, s3, steps[3], s4);
    assert Next(l, s4, steps[4], s2);
    assert Puts(l, states, steps, 1, digest) == 0;
    assert Puts(l, states, steps, 2, digest) == 1;
    assert Puts(l, states, steps, 3, digest) == 1;
    assert Puts(l, states, steps, 4, digest) == 1;
  }

  // ---- Content types ----

  lemma {:induction false} HeadOfHeader(base: string, parameters: string)
    requires ';' !in base
    ensures BeforeSemicolon(base + ";" + parameters) == base && BeforeSemicolon(base) == base
  {
    if base != "" {
      assert (base + ";" + parameters)[1..] == base[1..] + ";" + parameters;
      assert forall c | c in base[1..] :: c in base;
      assert base[0] in base;
      HeadOfHeader(base[1..], parameters);
    }
  }

  /** The parameters of a Content-Type header play no part in the extension. */
  lemma ParametersIgnored(lower: string -> string, base: string, parameters: string)
    requires ';' !in base
    ensures GuessedExtension(lower, base + ";" + parameters) == GuessedExtension(lower, base)
  {
    HeadOfHeader(base, parameters);
  }

  /** The extension for each type the archive knows, and for all others. */
  lemma TypeTable(lower: string -> string, contentType: string)
    requires ';' !in contentType
    ensures var base, ext := lower(Strip(contentType)), GuessedExtension(lower, contentType);
            && (ext == "json" <==> base == "application/json")
            && (ext == "pdf" <==> base == "application/pdf")
            && (ext == "html" <==> base == "text/html")
            && (ext == "csv" <==> base == "text/csv")
            && (ext == "txt" <==> base == "text/plain")
            && (ext == "xml" <==> base == "application/xml" || base == "text/xml")
            && (ext in {"json", "pdf", "html", "csv", "txt", "xml", "bin"})
  {
    HeadOfHeader(contentType, "");
    ExtensionsDiffer();
  }

  lemma ExtensionsDiffer()
    ensures "json" != "html" && "pdf" != "csv" && "pdf" != "txt" && "pdf" != "xml" && "pdf" != "bin"
    ensures "csv" != "txt" && "csv" != "xml" && "csv" != "bin" && "txt" != "xml" && "txt" != "bin" && "xml" != "bin"
    ensures "application/json" != "application/pdf" && "text/csv" != "text/xml"
    ensures "application/xml" != "application/pdf"
  {
    assert "json"[0] == 'j' && "html"[0] == 'h' && "pdf"[0] == 'p' && "csv"[0] == 'c' && "txt"[0] == 't';
    assert "xml"[0] == 'x' && "bin"[0] == 'b';
    assert "application/xml"[12] == 'x' && "application/pdf"[12] == 'p';
    assert "text/csv"[5] == 'c' && "text/xml"[5] == 'x';
  }
}
