/**
 * The connection tab: `save_connection_settings` upserts one settings row per
 * analyzer from the form, `set_analyzer` loads that row back into the form,
 * and `toggle_socket_type` decides which address and port fields are
 * editable for the chosen socket role.
 */
module ConnectionConfig {
  import opened Table
  import opened Schema

  datatype Transport = TcpIp | Serial

  datatype Role = Server | Client

  /** The connection tab's widgets: the two radio groups, the text fields
      and combo boxes as their current text, and the two check boxes. */
  datatype Form = Form(
    transport: Transport,
    role: Role,
    analyzerAddress: string,
    analyzerPort: string,
    lisAddress: string,
    lisPort: string,
    serialPort: string,
    baudRate: string,
    dataBits: string,
    stopBits: string,
    parity: string,
    autoResult: bool,
    requestSample: bool,
    sampleDelay: string,
    resultDelay: string)

  /** The two values the `connection_type` column can be given. */
  predicate KnownTransport(s: Settings) {
    s.connectionType == "TCP/IP" || s.connectionType == "Serial"
  }

  function TransportName(t: Transport): string {
    match t
    case TcpIp => "TCP/IP"
    case Serial => "Serial"
  }

  function RoleName(r: Role): string {
    match r
    case Server => "Server"
    case Client => "Client"
  }

  function Flag(b: bool): int { if b then 1 else 0 }

  /** The row the form is saved as, for analyzer a: every field, whichever
      transport is chosen. */
  function SettingsOf(f: Form, a: nat): Settings {
    Settings(a, TransportName(f.transport), RoleName(f.role),
      f.analyzerAddress, f.analyzerPort, f.lisAddress, f.lisPort,
      f.serialPort, f.baudRate, f.dataBits, f.stopBits, f.parity,
      Flag(f.autoResult), Flag(f.requestSample), f.sampleDelay, f.resultDelay)
  }

  // -------------------------------------------- save_connection_settings

  /** `save_connection_settings`: without a selected analyzer nothing is
      written; otherwise the analyzer's settings rows are overwritten with
      the form, or one is inserted if it has none. Only the settings table
      changes, other analyzers' settings are untouched, and no analyzer ever
      gets a second settings row. */
  function SaveConnectionSettings(db: Db, analyzer: Option<nat>, f: Form): (r: Db)
    ensures !Selected(analyzer) ==> r == db
    ensures r == db.(settings := r.settings)
    ensures Selected(analyzer) ==>
      && HasKey(r.settings.rows, SettingsOwner, analyzer.value)
      && (forall x | x in r.settings.rows && x.val.analyzerId == analyzer.value ::
            x.val == SettingsOf(f, analyzer.value) && KnownTransport(x.val))
      && (forall x | x in db.settings.rows && x.val.analyzerId != analyzer.value :: x in r.settings.rows)
      && (forall x | x in r.settings.rows && x.val.analyzerId != analyzer.value :: x in db.settings.rows)
      && |r.settings.rows| == |db.settings.rows| + (if HasKey(db.settings.rows, SettingsOwner, analyzer.value) then 0 else 1)
    ensures UniqueKeys(db.settings.rows, SettingsOwner) ==> UniqueKeys(r.settings.rows, SettingsOwner)
    ensures WellFormed(db) ==> WellFormed(r)
  {
    if !Selected(analyzer) then db
    else db.(settings := Upsert(db.settings, SettingsOwner, SettingsOf(f, analyzer.value)))
  }

  /** Saving keeps every stored connection type one of the two the form
      writes. */
  lemma SaveKeepsKnownTransports(db: Db, analyzer: Option<nat>, f: Form)
    requires forall x | x in db.settings.rows :: KnownTransport(x.val)
    ensures forall x | x in SaveConnectionSettings(db, analyzer, f).settings.rows :: KnownTransport(x.val)
  {
    var r := SaveConnectionSettings(db, analyzer, f);
    if Selected(analyzer) {
      forall x | x in r.settings.rows ensures KnownTransport(x.val) {
        if x.val.analyzerId != analyzer.value {
          assert x in db.settings.rows;
        }
      }
    }
  }

  // ------------------------------------------------------- set_analyzer

  /** The settings row `SELECT ... WHERE analyzer_id = ?` then `fetchone()`
      returns, if any. */
  function GetSettings(t: Table<Settings>, a: nat): (r: Option<Settings>)
    ensures r.None? <==> !HasKey(t.rows, SettingsOwner, a)
    ensures r.Some? ==> r.value.analyzerId == a && exists x | x in t.rows :: x.val == r.value
  {
    match FirstWith(t.rows, SettingsOwner, a)
    case None => None
    case Some(x) => Some(x.val)
  }

  /** `settings[k] or d`: an empty (or NULL) column falls back to d. */
  function OrDefault(s: string, d: string): string {
    if s == "" then d else s
  }

  /** Loading a settings row into the form. A TCP/IP row sets the socket
      role and the four address fields and leaves the serial fields as they
      were; any other row selects Serial, sets the serial fields (with
      their defaults for empty columns) and leaves the role and address
      fields as they were. The check boxes and delays are always set. */
  function LoadSettings(f: Form, s: Settings): Form {
    var g :=
      if s.connectionType == "TCP/IP" then
        f.(transport := TcpIp,
           role := if s.socketType == "Server" then Server else Client,
           analyzerAddress := s.analyzerAddress, analyzerPort := s.analyzerPort,
           lisAddress := s.lisAddress, lisPort := s.lisPort)
      else
        f.(transport := Serial,
           serialPort := OrDefault(s.serialPort, "COM1"), baudRate := OrDefault(s.baudRate, "9600"),
           dataBits := OrDefault(s.dataBits, "8"), stopBits := OrDefault(s.stopBits, "1"),
           parity := OrDefault(s.parity, "No"));
    g.(autoResult := s.autoResultSending != 0, requestSample := s.requestSampleInfo != 0,
       sampleDelay := OrDefault(s.sampleIdDelay, "0"), resultDelay := OrDefault(s.resultSendingDelay, "0"))
  }

  /** `set_analyzer`'s effect on the connection tab: the analyzer's settings
      row if there is one, otherwise the form as it was. An unselected combo
      box matches no row. */
  function SetAnalyzer(db: Db, analyzer: Option<nat>, f: Form): (r: Form)
    ensures analyzer.None? ==> r == f
    ensures analyzer.Some? && !HasKey(db.settings.rows, SettingsOwner, analyzer.value) ==> r == f
  {
    if analyzer.None? then f
    else match GetSettings(db.settings, analyzer.value)
      case None => f
      case Some(s) => LoadSettings(f, s)
  }

  /** g is what reloading a saved form f shows, starting from the form
      `before`: the transport, the check boxes and the delays (an empty
      delay as "0"), and the fields of f's transport (the socket role and
      addresses for TCP/IP; the serial fields, each empty one replaced by
      its default, for Serial). The other transport's fields keep what
      `before` showed. */
  predicate Restores(g: Form, f: Form, before: Form) {
    && g.transport == f.transport
    && g.autoResult == f.autoResult && g.requestSample == f.requestSample
    && g.sampleDelay == OrDefault(f.sampleDelay, "0") && g.resultDelay == OrDefault(f.resultDelay, "0")
    && (f.transport == TcpIp ==>
          && g.role == f.role
          && g.analyzerAddress == f.analyzerAddress && g.analyzerPort == f.analyzerPort
          && g.lisAddress == f.lisAddress && g.lisPort == f.lisPort
          && g.serialPort == before.serialPort && g.baudRate == before.baudRate
          && g.dataBits == before.dataBits && g.stopBits == before.stopBits && g.parity == before.parity)
    && (f.transport == Serial ==>
          && g.serialPort == OrDefault(f.serialPort, "COM1") && g.baudRate == OrDefault(f.baudRate, "9600")
          && g.dataBits == OrDefault(f.dataBits, "8") && g.stopBits == OrDefault(f.stopBits, "1")
          && g.parity == OrDefault(f.parity, "No")
          && g.role == before.role
          && g.analyzerAddress == before.analyzerAddress && g.analyzerPort == before.analyzerPort
          && g.lisAddress == before.lisAddress && g.lisPort == before.lisPort)
  }

  /** Loading the row a form was saved as restores the form. */
  lemma LoadSaved(f: Form, a: nat, before: Form)
    ensures Restores(LoadSettings(before, SettingsOf(f, a)), f, before)
  {
  }

  /** Saving the form and selecting the analyzer again restores what was
      saved, in the sense of Restores. */
  lemma SaveThenLoad(db: Db, a: nat, f: Form, before: Form)
    requires a != 0
    ensures Restores(SetAnalyzer(SaveConnectionSettings(db, Some(a), f), Some(a), before), f, before)
  {
    var r := SaveConnectionSettings(db, Some(a), f);
    assert GetSettings(r.settings, a) == Some(SettingsOf(f, a));
    LoadSaved(f, a, before);
  }

  /** A form whose fields are all non-empty comes back unchanged in the
      fields of its transport, given that the delay columns keep their
      text. */
  lemma SaveThenLoadFilled(db: Db, a: nat, f: Form)
    requires a != 0
    requires f.sampleDelay != "" && f.resultDelay != ""
    requires f.transport == Serial ==>
      f.serialPort != "" && f.baudRate != "" && f.dataBits != "" && f.stopBits != "" && f.parity != ""
    ensures SetAnalyzer(SaveConnectionSettings(db, Some(a), f), Some(a), f) == f
  {
    SaveThenLoad(db, a, f, f);
  }

  // -------------------------------------------------- toggle_socket_type

  /** Which of the four address and port fields are editable. */
  datatype Enabled = Enabled(analyzerAddress: bool, analyzerPort: bool, lisAddress: bool, lisPort: bool)

  /** `toggle_socket_type`: in server mode the simulator listens on its own
      port; in client mode it dials the LIS port. */
  function SocketFields(role: Role): (r: Enabled)
    ensures r.analyzerAddress && r.lisAddress
    ensures r.analyzerPort <==> role == Server
    ensures r.lisPort <==> role == Client
    // exactly one port is editable
    ensures r.analyzerPort != r.lisPort
  {
    var server := role == Server;
    Enabled(true, server, true, !server)
  }
}
