/** The static default service definition `BASE_POLICY` (lines 17-190): an Open
    Horizon service with one container, no required services and a catalogue of 23
    user inputs. Placeholder tokens such as `$ARCH` are literal strings here. */
module Template {
  import opened JsonValue

  /** One entry of `userInput`: a configurable parameter of the deployed service. */
  datatype UserInputSpec = UserInputSpec(name: string, labelText: string, typ: string, defaultValue: string)
  {
    /** The entry as the dictionary that appears in the template. */
    function ToJson(): (j: Json)
      ensures j.JObj? && j.fields.Keys == {"name", "label", "type", "defaultValue"}
      ensures j.fields["name"] == JStr(name) && j.fields["type"] == JStr(typ)
    {
      JObj(map["name" := JStr(name), "label" := JStr(labelText), "type" := JStr(typ),
               "defaultValue" := JStr(defaultValue)])
    }
  }

  const BindLabel := "A bool value that determines if to bind to a specific IP and Port (a false value binds to all IPs)"

  // The entries of `userInput` (lines 29-172), one constant per parameter.
  const AnylogPath := UserInputSpec("ANYLOG_PATH", "AnyLog dir path", "string", "/app")
  const InitType := UserInputSpec("INIT_TYPE", "Whether to deploy AnyLog or shell as a docker container", "string", "prod")
  const DisableCli := UserInputSpec("DISABLE_CLI", "Disable CLI", "bool", "false")
  const NodeType := UserInputSpec("NODE_TYPE", "Information regarding which AnyLog node configurations to enable. By default, even if everything is disabled, AnyLog starts TCP and REST connection protocols", "string", "generic")
  const NodeName := UserInputSpec("NODE_NAME", "Name of the AnyLog instance", "string", "anylog-node")
  const CompanyName := UserInputSpec("COMPANY_NAME", "Owner of the AnyLog instance", "string", "New Company")
  const AnylogServerPort := UserInputSpec("ANYLOG_SERVER_PORT", "Port address used by AnyLog's TCP protocol to communicate with other nodes in the network", "int", "32548")
  const AnylogRestPort := UserInputSpec("ANYLOG_REST_PORT", "Port address used by AnyLog's REST protocol", "int", "32549")
  const TcpBind := UserInputSpec("TCP_BIND", BindLabel, "bool", "false")
  const RestBind := UserInputSpec("REST_BIND", BindLabel, "bool", "false")
  const BrokerBind := UserInputSpec("BROKER_BIND", BindLabel, "bool", "false")
  const LedgerConn := UserInputSpec("LEDGER_CONN", "TCP connection information for Master Node", "string", "127.0.0.1:32048")
  const DbType := UserInputSpec("DB_TYPE", "Physical database type (sqlite or psql)", "string", "sqlite")
  const DbUser := UserInputSpec("DB_USER", "Physical database type (sqlite or psql)", "string", "admin")
  const DbIp := UserInputSpec("DB_IP", "Database IP address", "string", "127.0.0.1")
  const DbPort := UserInputSpec("DB_PORT", "Database port number", "int", "5432")
  const SystemQuery := UserInputSpec("SYSTEM_QUERY", "Whether to start to start system_query logical database", "string", "false")
  const Memory := UserInputSpec("MEMORY", "Run system_query using in-memory SQLite. If set to false, will use pre-set database type", "string", "true")
  const ClusterName := UserInputSpec("CLUSTER_NAME", "Owner of the cluster", "string", "new-company-cluster")
  const DefaultDbms := UserInputSpec("DEFAULT_DBMS", "Owner of the cluster", "string", "new_company")
  const EnableMqtt := UserInputSpec("ENABLE_MQTT", "Whether to enable the default MQTT process", "bool", "false")
  const DeployLocalScript := UserInputSpec("DEPLOY_LOCAL_SCRIPT", "Whether to automatically run a local (or personalized) script at the end of the process", "bool", "false")
  const MonitorNodes := UserInputSpec("MONITOR_NODES", "Whether to monitor the node", "bool", "false")

  /** The `userInput` catalogue of the template, in order (lines 28-174). */
  const UserInputs: seq<UserInputSpec> := [
    AnylogPath, InitType, DisableCli, NodeType,
    NodeName, CompanyName, AnylogServerPort, AnylogRestPort,
    TcpBind, RestBind, BrokerBind, LedgerConn,
    DbType, DbUser, DbIp, DbPort,
    SystemQuery, Memory, ClusterName, DefaultDbms,
    EnableMqtt, DeployLocalScript, MonitorNodes
  ]

  /** The entries of a catalogue as template dictionaries, in order: each one a dict
      of four strings taken from its entry, and names distinct in the catalogue stay
      distinct in the list. */
  function UserInputsJson(specs: seq<UserInputSpec>): (r: seq<Json>)
    ensures |r| == |specs|
    ensures forall k :: 0 <= k < |specs| ==>
      r[k].JObj? && r[k].fields.Keys == {"name", "label", "type", "defaultValue"} &&
      r[k].fields["name"] == JStr(specs[k].name) && r[k].fields["label"] == JStr(specs[k].labelText) &&
      r[k].fields["type"] == JStr(specs[k].typ) && r[k].fields["defaultValue"] == JStr(specs[k].defaultValue)
    ensures (forall i, j :: 0 <= i < j < |specs| ==> specs[i].name != specs[j].name) ==>
      forall i, j :: 0 <= i < j < |r| ==> r[i].fields["name"] != r[j].fields["name"]
  {
    seq(|specs|, k requires 0 <= k < |specs| => specs[k].ToJson())
  }

  /** The `deployment` section (lines 175-189). */
  const Deployment: Json := JObj(map[
    "services" := JObj(map[
      "$SERVICE_NAME" := JObj(map[
        "image" := JStr("$DOCKER_IMAGE_BASE:$DOCKER_IMAGE_VERSION"),
        "network" := JStr("host"),
        "privileged" := JBool(true),
        "binds" := JArr([
          JStr("edgelake-operator-anylog:/app/EdgeLake/anylog"),
          JStr("edgelake-operator-blockchain:/app/EdgeLake/blockchain"),
          JStr("edgelake-operator-data:/app/EdgeLake/data"),
          JStr("edgelake-operator-local-scripts:/app/deployment-scripts")
        ])
      ])
    ])
  ])

  /** `BASE_POLICY`, the template service definition (lines 17-190). */
  const BasePolicy: Json := JObj(map[
    "org" := JStr("$HZN_ORG_ID"),
    "label" := JStr("$SERVICE_NAME for $ARCH"),
    "description" := JStr("A service to deploy EdgeLake with Open Horizon"),
    "documentation" := JStr("https://edgelake.github.io/"),
    "url" := JStr("$SERVICE_NAME"),
    "version" := JStr("$SERVICE_VERSION"),
    "arch" := JStr("$ARCH"),
    "public" := JBool(true),
    "sharable" := JStr("singleton"),
    "requiredServices" := JArr([]),
    "userInput" := JArr(UserInputsJson(UserInputs)),
    "deployment" := Deployment
  ])

  /** Every `type` of the catalogue is `string`, `int` or `bool`. */
  predicate TypesAreKnown(specs: seq<UserInputSpec>)
  {
    forall k :: 0 <= k < |specs| ==> specs[k].typ in {"string", "int", "bool"}
  }

  /** The catalogue has 23 entries, each of a known type. */
  lemma UserInputsTyped()
    ensures |UserInputs| == 23
    ensures TypesAreKnown(UserInputs)
  {
  }

  /** No two entries of the catalogue share a name. */
  lemma UserInputNamesDistinct()
    ensures forall i, j :: 0 <= i < j < |UserInputs| ==> UserInputs[i].name != UserInputs[j].name
  {
  }

  /** The template as a document: an object whose `requiredServices` is an empty list
      and whose `userInput` is a list of 23 dictionaries with pairwise distinct `name`
      strings and a `type` among `string`, `int` and `bool`. */
  lemma BasePolicyShape()
    ensures BasePolicy.JObj? && "requiredServices" in BasePolicy.fields && "userInput" in BasePolicy.fields
    ensures BasePolicy.fields["requiredServices"] == JArr([])
    ensures var u := BasePolicy.fields["userInput"];
      u.JArr? && |u.items| == 23 &&
      (forall k :: 0 <= k < |u.items| ==>
         u.items[k].JObj? && "name" in u.items[k].fields && "type" in u.items[k].fields &&
         u.items[k].fields["name"].JStr? &&
         u.items[k].fields["type"] in {JStr("string"), JStr("int"), JStr("bool")}) &&
      (forall i, j :: 0 <= i < j < |u.items| ==> u.items[i].fields["name"] != u.items[j].fields["name"])
  {
    UserInputsTyped();
    UserInputNamesDistinct();
  }
}
