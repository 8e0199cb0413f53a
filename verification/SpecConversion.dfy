/**
 Conversion of the cluster spec between API versions v1alpha1 and v1beta1. Not every field has a
 counterpart, so converting there and back is a normal form rather than the identity.
 */
module SpecConversion {
  import opened GoStrings

  /** Any structured value that is copied as a whole; "" is its zero value. */
  type Blob = string

  /**
   Quantities by their canonical text: None where parsing panics. Canonical text is parsed to itself, the
   empty string is not a quantity, and the zero quantity is written "0".
   */
  type Quantities = canon: string -> Option<string> | CanonicalText(canon)
    witness (s: string) => if s == "" then None else Some(s)

  ghost predicate CanonicalText(canon: string -> Option<string>) {
    canon("") == None && forall s :: canon(s).Some? ==> canon(canon(s).value) == canon(s)
  }

  function FormatQuantity(q: string): string {
    if q == "0" then "" else q
  }

  // The two versions of the spec.

  /** Fields of the same name and type in both versions. */
  datatype Shared = Shared(replicas: Option<int>, readOnlys: Blob, replicaLag: Option<int>, minAvailable: string,
                           mysqlVersion: string, leaderAsFollower: bool, serverIDOffset: int)

  datatype XenonOpts = XenonOpts(image: string, tuning: Blob, enableAutoRebuild: bool, resources: Blob)

  datatype MetricsOpts = MetricsOpts(image: string, enabled: bool, resources: Blob)

  datatype LogPVC = LogPVC(accessModes: Blob, storageClass: Blob, size: string)

  datatype MysqlOpts = MysqlOpts(image: string, user: string, confTemplate: string, conf: Blob, pluginConf: Blob,
                                 resources: Blob, maxLagSeconds: int, logfilePVC: Option<LogPVC>, password: string,
                                 rootPassword: string, rootHost: string, database: string, initTokuDB: bool)

  datatype PodPolicy = PodPolicy(imagePullPolicy: string, labels: Blob, annotations: Blob, affinity: Blob,
                                 priorityClassName: string, tolerations: Blob, schedulerName: string,
                                 extraResources: Blob, sidecarImage: string, busyboxImage: string,
                                 slowLogTail: bool, auditLogTail: bool)

  datatype Persistence = Persistence(enabled: bool, accessModes: Blob, storageClass: Blob, size: string)

  datatype AlphaSpec = AlphaSpec(shared: Shared, mysqlOpts: MysqlOpts, xenonOpts: XenonOpts, metricsOpts: MetricsOpts,
                                 podPolicy: PodPolicy, persistence: Persistence, backupSecretName: string,
                                 restoreFrom: string, restorePoint: string, nfsServerAddress: string,
                                 backupSchedule: string, bothS3NFS: Blob, historyLimit: Option<int>,
                                 tlsSecretName: string, sourceConfig: Option<Blob>, remoteCluster: Option<Blob>)

  /** A volume claim with its storage request in canonical text. */
  datatype Claim = Claim(accessModes: Blob, storageClass: Blob, request: string)

  datatype Nfs = Nfs(name: string, server: string, path: string)

  datatype DataSource = DataSource(s3Name: string, s3Secret: string, restorePoint: string, nfs: Option<Nfs>,
                                   sourceConfig: Option<Blob>, remoteCluster: Option<Blob>)

  datatype LogOpts = LogOpts(slowLogTail: bool, auditLogTail: bool, busyboxImage: string, resources: Blob,
                             logfilePVC: Option<Claim>)

  datatype BetaSpec = BetaSpec(shared: Shared, image: string, user: string, configMapName: string, mysqlConfig: Blob,
                               pluginConfig: Blob, resources: Blob, maxLagSeconds: int, tlsSecret: Option<string>,
                               storage: Claim, xenon: XenonOpts, backupImage: string, backupResources: Blob,
                               exporter: MetricsOpts, imagePullPolicy: string, tolerations: Blob, affinity: Blob,
                               priorityClassName: string, dataSource: DataSource, enableAutoRebuild: bool, log: LogOpts)

  const ZERO_SHARED: Shared := Shared(None, "", None, "", "", false, 0)
  const ZERO_XENON: XenonOpts := XenonOpts("", "", false, "")
  const ZERO_METRICS: MetricsOpts := MetricsOpts("", false, "")
  const ZERO_ALPHA: AlphaSpec := AlphaSpec(
    ZERO_SHARED, MysqlOpts("", "", "", "", "", "", 0, None, "", "", "", "", false), ZERO_XENON, ZERO_METRICS,
    PodPolicy("", "", "", "", "", "", "", "", "", "", false, false), Persistence(false, "", "", ""),
    "", "", "", "", "", "", None, "", None, None)
  const ZERO_BETA: BetaSpec := BetaSpec(
    ZERO_SHARED, "", "", "", "", "", "", 0, None, Claim("", "", "0"), ZERO_XENON, "", "", ZERO_METRICS, "", "", "", "",
    DataSource("", "", "", None, None, None), false, LogOpts(false, false, "", "", None))

  // The NFS address.

  function NfsServer(addr: string): string {
    Split(addr, ':')[0]
  }

  function NfsPath(addr: string): string {
    var parts := Split(addr, ':');
    if |parts| == 2 then parts[1] else "/"
  }

  function NfsAddress(server: string, path: string): string {
    server + [':'] + path
  }

  function CanonicalAddress(addr: string): string {
    NfsAddress(NfsServer(addr), NfsPath(addr))
  }

  /** The joined address splits into the same two parts again. */
  lemma AddressIsNormal(addr: string)
    ensures NfsServer(CanonicalAddress(addr)) == NfsServer(addr) && NfsPath(CanonicalAddress(addr)) == NfsPath(addr)
    ensures CanonicalAddress(CanonicalAddress(addr)) == CanonicalAddress(addr)
  {
    SplitPartsClean(addr, ':');
    var s, p := NfsServer(addr), NfsPath(addr);
    assert s in Split(addr, ':');
    assert ':' !in p;
    SplitConcat(s, p, ':');
    SplitWhole(s, ':');
    SplitWhole(p, ':');
  }

  /** An address survives exactly when it has one colon. */
  lemma AddressSurvives(addr: string)
    ensures CanonicalAddress(addr) == addr <==> |Split(addr, ':')| == 2
  {
    var parts := Split(addr, ':');
    JoinSplit(addr, ':');
    if |parts| == 2 {
      assert parts == [parts[0], parts[1]] && parts[1..] == [parts[1]];
    } else if CanonicalAddress(addr) == addr {
      AddressIsNormal(addr);
      SplitPartsClean(addr, ':');
      assert parts[0] in parts;
      SplitConcat(parts[0], "/", ':');
      SplitWhole(parts[0], ':');
      SplitWhole("/", ':');
    }
  }

  // v1alpha1 to v1beta1.

  function ClaimOf(q: Quantities, accessModes: Blob, storageClass: Blob, size: string): Option<Claim> {
    match q(size)
    case None => None
    case Some(r) => Some(Claim(accessModes, storageClass, r))
  }

  function DataSourceOf(in_: AlphaSpec): DataSource {
    var s3, nfs := in_.backupSecretName != "", in_.nfsServerAddress != "";
    DataSource(if s3 then in_.restoreFrom else "", if s3 then in_.backupSecretName else "",
               if s3 || nfs then in_.restorePoint else "",
               if !nfs then None
               else Some(Nfs(in_.restoreFrom, NfsServer(in_.nfsServerAddress), NfsPath(in_.nfsServerAddress))),
               in_.sourceConfig, in_.remoteCluster)
  }

  function ToBeta(q: Quantities, in_: AlphaSpec): Option<BetaSpec> {
    var m, p := in_.mysqlOpts, in_.podPolicy;
    var logClaim := match m.logfilePVC
                    case None => None
                    case Some(pvc) => ClaimOf(q, pvc.accessModes, pvc.storageClass, pvc.size);
    var claim := ClaimOf(q, in_.persistence.accessModes, in_.persistence.storageClass, in_.persistence.size);
    if claim.None? || (m.logfilePVC.Some? && logClaim.None?) then None
    else Some(BetaSpec(
      in_.shared, m.image, m.user, m.confTemplate, m.conf, m.pluginConf, m.resources, m.maxLagSeconds,
      if in_.tlsSecretName != "" then Some(in_.tlsSecretName) else None, claim.value, in_.xenonOpts,
      p.sidecarImage, p.extraResources, in_.metricsOpts, p.imagePullPolicy, p.tolerations, p.affinity,
      p.priorityClassName, DataSourceOf(in_), false,
      LogOpts(p.slowLogTail, p.auditLogTail, p.busyboxImage, p.extraResources, logClaim)))
  }

  /** The conversion proper: fills a zero spec field by field; None is a panic on a malformed size. */
  method ConvertToBeta(q: Quantities, in_: AlphaSpec) returns (r: Option<BetaSpec>)
    ensures r == ToBeta(q, in_)
  {
    hide DataSourceOf;
    var out := ZERO_BETA.(shared := in_.shared);
    out := out.(image := in_.mysqlOpts.image, maxLagSeconds := in_.mysqlOpts.maxLagSeconds);
    out := out.(configMapName := in_.mysqlOpts.confTemplate, mysqlConfig := in_.mysqlOpts.conf,
                pluginConfig := in_.mysqlOpts.pluginConf, resources := in_.mysqlOpts.resources,
                user := in_.mysqlOpts.user);
    out := out.(xenon := in_.xenonOpts, exporter := in_.metricsOpts);
    out := out.(affinity := in_.podPolicy.affinity, imagePullPolicy := in_.podPolicy.imagePullPolicy,
                backupImage := in_.podPolicy.sidecarImage, backupResources := in_.podPolicy.extraResources);
    var log := out.log.(slowLogTail := in_.podPolicy.slowLogTail, auditLogTail := in_.podPolicy.auditLogTail);
    if in_.mysqlOpts.logfilePVC.Some? {
      var pvc := in_.mysqlOpts.logfilePVC.value;
      var size := q(pvc.size);
      if size.None? { return None; }
      log := log.(logfilePVC := Some(Claim(pvc.accessModes, pvc.storageClass, size.value)));
    } else {
      log := log.(logfilePVC := None);
    }
    out := out.(tolerations := in_.podPolicy.tolerations, priorityClassName := in_.podPolicy.priorityClassName);
    log := log.(busyboxImage := in_.podPolicy.busyboxImage, resources := in_.podPolicy.extraResources);
    var size := q(in_.persistence.size);
    if size.None? { return None; }
    out := out.(log := log, storage := Claim(in_.persistence.accessModes, in_.persistence.storageClass, size.value));
    var src := SourceSettings(in_);
    out := out.(dataSource := src);
    if in_.tlsSecretName != "" { out := out.(tlsSecret := Some(in_.tlsSecretName)); }
    return Some(out);
  }

  /** The data source, filled in under the conditions on secret, sources and NFS address. */
  method SourceSettings(in_: AlphaSpec) returns (src: DataSource)
    ensures src == DataSourceOf(in_)
  {
    src := ZERO_BETA.dataSource;
    if |in_.backupSecretName| != 0 {
      src := src.(s3Name := in_.restoreFrom, s3Secret := in_.backupSecretName, restorePoint := in_.restorePoint);
    }
    if in_.sourceConfig.Some? { src := src.(sourceConfig := in_.sourceConfig); }
    if in_.remoteCluster.Some? { src := src.(remoteCluster := in_.remoteCluster); }
    if |in_.nfsServerAddress| != 0 {
      var ipStr := Split(in_.nfsServerAddress, ':');
      src := src.(restorePoint := in_.restorePoint,
                  nfs := Some(Nfs(in_.restoreFrom, ipStr[0], if |ipStr| == 2 then ipStr[1] else "/")));
    }
  }

  // v1beta1 to v1alpha1.

  function ToAlpha(in_: BetaSpec): AlphaSpec {
    var src := in_.dataSource;
    AlphaSpec(
      in_.shared,
      MysqlOptsOf(in_),
      in_.xenon.(enableAutoRebuild := in_.enableAutoRebuild),
      in_.exporter,
      PodPolicyOf(in_),
      Persistence(false, in_.storage.accessModes, in_.storage.storageClass, FormatQuantity(in_.storage.request)),
      if src.s3Name != "" then src.s3Secret else "",
      if src.nfs.Some? then src.nfs.value.name else src.s3Name,
      if src.s3Name != "" || src.nfs.Some? then src.restorePoint else "",
      if src.nfs.Some? then NfsAddress(src.nfs.value.server, src.nfs.value.path) else "",
      "", "", None,
      if in_.tlsSecret.Some? then in_.tlsSecret.value else "",
      src.sourceConfig, src.remoteCluster)
  }

  function MysqlOptsOf(in_: BetaSpec): MysqlOpts {
    MysqlOpts(in_.image, in_.user, in_.configMapName, in_.mysqlConfig, in_.pluginConfig, in_.resources, 0,
              if in_.log.logfilePVC.None? then None
              else Some(LogPVC(in_.log.logfilePVC.value.accessModes, in_.log.logfilePVC.value.storageClass,
                               FormatQuantity(in_.log.logfilePVC.value.request))),
              "", "", "", "", false)
  }

  function PodPolicyOf(in_: BetaSpec): PodPolicy {
    PodPolicy(in_.imagePullPolicy, "", "", in_.affinity, in_.priorityClassName, in_.tolerations, "",
              in_.backupResources, in_.backupImage, in_.log.busyboxImage, in_.log.slowLogTail, in_.log.auditLogTail)
  }

  method ConvertToAlpha(in_: BetaSpec) returns (out: AlphaSpec)
    ensures out == ToAlpha(in_)
  {
    out := ZERO_ALPHA.(shared := in_.shared);
    var mysqlOpts := MysqlSettings(in_, out.mysqlOpts);
    if in_.tlsSecret.Some? { out := out.(tlsSecretName := in_.tlsSecret.value); }
    out := out.(persistence := out.persistence.(storageClass := in_.storage.storageClass,
                                                size := FormatQuantity(in_.storage.request),
                                                accessModes := in_.storage.accessModes));
    var podPolicy := PodSettings(in_, out.podPolicy);
    var xenonOpts := in_.xenon;
    xenonOpts := xenonOpts.(enableAutoRebuild := in_.enableAutoRebuild);
    out := out.(mysqlOpts := mysqlOpts, podPolicy := podPolicy, metricsOpts := in_.exporter, xenonOpts := xenonOpts);
    out := RestoreSettings(in_.dataSource, out);
  }

  method MysqlSettings(in_: BetaSpec, opts: MysqlOpts) returns (m: MysqlOpts)
    requires opts == ZERO_ALPHA.mysqlOpts
    ensures m == MysqlOptsOf(in_)
  {
    m := opts.(user := in_.user, confTemplate := in_.configMapName, conf := in_.mysqlConfig,
               pluginConf := in_.pluginConfig, resources := in_.resources);
    m := m.(image := in_.image);
    if in_.log.logfilePVC.Some? {
      var pvc := in_.log.logfilePVC.value;
      m := m.(logfilePVC := Some(LogPVC(pvc.accessModes, pvc.storageClass, FormatQuantity(pvc.request))));
    } else {
      m := m.(logfilePVC := None);
    }
  }

  method PodSettings(in_: BetaSpec, policy: PodPolicy) returns (p: PodPolicy)
    requires policy == ZERO_ALPHA.podPolicy
    ensures p == PodPolicyOf(in_)
  {
    p := policy.(extraResources := in_.backupResources, sidecarImage := in_.backupImage);
    p := p.(slowLogTail := in_.log.slowLogTail, auditLogTail := in_.log.auditLogTail);
    p := p.(busyboxImage := in_.log.busyboxImage, imagePullPolicy := in_.imagePullPolicy,
            tolerations := in_.tolerations, affinity := in_.affinity, priorityClassName := in_.priorityClassName);
  }

  /** The last part of the conversion: sources are copied when present, NFS last. */
  method RestoreSettings(src: DataSource, spec: AlphaSpec) returns (out: AlphaSpec)
    ensures out == spec.(
              sourceConfig := if src.sourceConfig.Some? then src.sourceConfig else spec.sourceConfig,
              remoteCluster := if src.remoteCluster.Some? then src.remoteCluster else spec.remoteCluster,
              backupSecretName := if src.s3Name != "" then src.s3Secret else spec.backupSecretName,
              restoreFrom := if src.nfs.Some? then src.nfs.value.name
                             else if src.s3Name != "" then src.s3Name else spec.restoreFrom,
              restorePoint := if src.s3Name != "" || src.nfs.Some? then src.restorePoint else spec.restorePoint,
              nfsServerAddress := if src.nfs.Some? then NfsAddress(src.nfs.value.server, src.nfs.value.path)
                                  else spec.nfsServerAddress)
  {
    out := spec;
    if src.sourceConfig.Some? { out := out.(sourceConfig := src.sourceConfig); }
    if src.remoteCluster.Some? { out := out.(remoteCluster := src.remoteCluster); }
    if |src.s3Name| != 0 {
      out := out.(restoreFrom := src.s3Name, backupSecretName := src.s3Secret, restorePoint := src.restorePoint);
    }
    if src.nfs.Some? {
      var nfs := src.nfs.value;
      out := out.(restoreFrom := nfs.name, nfsServerAddress := nfs.server + ":" + nfs.path,
                  restorePoint := src.restorePoint);
    }
  }

  // Where every field goes. Some are not read back, so going there and back does not show them.

  /** The conversion panics exactly on a size that cannot be parsed. */
  lemma ConvertsExactly(q: Quantities, s: AlphaSpec)
    ensures ToBeta(q, s).Some? <==>
            && q(s.persistence.size).Some?
            && (s.mysqlOpts.logfilePVC.Some? ==> q(s.mysqlOpts.logfilePVC.value.size).Some?)
  {
  }

  lemma FieldsOfBeta(q: Quantities, s: AlphaSpec)
    requires ToBeta(q, s).Some?
    ensures var b, m, p := ToBeta(q, s).value, s.mysqlOpts, s.podPolicy;
            && b.shared == s.shared && b.image == m.image && b.user == m.user && b.configMapName == m.confTemplate
            && b.mysqlConfig == m.conf && b.pluginConfig == m.pluginConf && b.resources == m.resources
            && b.maxLagSeconds == m.maxLagSeconds && b.xenon == s.xenonOpts && b.exporter == s.metricsOpts
            && !b.enableAutoRebuild && b.backupImage == p.sidecarImage && b.backupResources == p.extraResources
            && b.imagePullPolicy == p.imagePullPolicy && b.tolerations == p.tolerations && b.affinity == p.affinity
            && b.priorityClassName == p.priorityClassName
    ensures var b, p := ToBeta(q, s).value, s.podPolicy;
            && b.log.slowLogTail == p.slowLogTail && b.log.auditLogTail == p.auditLogTail
            && b.log.busyboxImage == p.busyboxImage && b.log.resources == p.extraResources
            && (b.log.logfilePVC.Some? <==> s.mysqlOpts.logfilePVC.Some?)
    ensures ClaimMatches(q, s.persistence.accessModes, s.persistence.storageClass, s.persistence.size,
                         ToBeta(q, s).value.storage)
    ensures s.mysqlOpts.logfilePVC.Some? ==>
              var pvc := s.mysqlOpts.logfilePVC.value;
              ClaimMatches(q, pvc.accessModes, pvc.storageClass, pvc.size, ToBeta(q, s).value.log.logfilePVC.value)
    ensures ToBeta(q, s).value.tlsSecret.Some? <==> s.tlsSecretName != ""
    ensures s.tlsSecretName != "" ==> ToBeta(q, s).value.tlsSecret.value == s.tlsSecretName
  {
  }

  predicate ClaimMatches(q: Quantities, accessModes: Blob, storageClass: Blob, size: string, c: Claim) {
    c.accessModes == accessModes && c.storageClass == storageClass && q(size) == Some(c.request)
  }

  /** The restore point follows either source; an NFS source takes over the name of what is restored. */
  lemma SourceOfBeta(q: Quantities, s: AlphaSpec)
    requires ToBeta(q, s).Some?
    ensures var d := ToBeta(q, s).value.dataSource;
            && d.sourceConfig == s.sourceConfig && d.remoteCluster == s.remoteCluster
            && d.s3Secret == s.backupSecretName
            && (s.backupSecretName != "" ==> d.s3Name == s.restoreFrom)
            && (s.backupSecretName != "" || s.nfsServerAddress != "" ==> d.restorePoint == s.restorePoint)
            && (s.backupSecretName == "" ==> d.s3Name == "")
            && (s.backupSecretName == "" && s.nfsServerAddress == "" ==> d.restorePoint == "")
            && (d.nfs.Some? <==> s.nfsServerAddress != "")
            && (d.nfs.Some? ==> d.nfs.value.name == s.restoreFrom &&
                                d.nfs.value.server == Split(s.nfsServerAddress, ':')[0])
            && (d.nfs.Some? && |Split(s.nfsServerAddress, ':')| == 2 ==>
                  d.nfs.value.path == Split(s.nfsServerAddress, ':')[1])
            && (d.nfs.Some? && |Split(s.nfsServerAddress, ':')| != 2 ==> d.nfs.value.path == "/")
  {
  }

  lemma FieldsOfAlpha(b: BetaSpec)
    ensures var s := ToAlpha(b);
            var m, p := s.mysqlOpts, s.podPolicy;
            && s.shared == b.shared && m.image == b.image && m.user == b.user && m.confTemplate == b.configMapName
            && m.conf == b.mysqlConfig && m.pluginConf == b.pluginConfig && m.resources == b.resources
            && s.metricsOpts == b.exporter && s.xenonOpts == b.xenon.(enableAutoRebuild := b.enableAutoRebuild)
            && p.sidecarImage == b.backupImage && p.extraResources == b.backupResources
            && p.imagePullPolicy == b.imagePullPolicy && p.tolerations == b.tolerations && p.affinity == b.affinity
            && p.priorityClassName == b.priorityClassName && p.slowLogTail == b.log.slowLogTail
            && p.auditLogTail == b.log.auditLogTail && p.busyboxImage == b.log.busyboxImage
    ensures var s := ToAlpha(b);
            && s.persistence.accessModes == b.storage.accessModes
            && s.persistence.storageClass == b.storage.storageClass
            && s.persistence.size == (if b.storage.request == "0" then "" else b.storage.request)
            && s.sourceConfig == b.dataSource.sourceConfig && s.remoteCluster == b.dataSource.remoteCluster
            && s.tlsSecretName == (if b.tlsSecret.Some? then b.tlsSecret.value else "")
  {
  }

  /** An NFS source wins over S3 for what is restored; without a name there is no S3 source. */
  lemma SourceOfAlpha(b: BetaSpec)
    ensures var s, d := ToAlpha(b), b.dataSource;
            && s.backupSecretName == (if d.s3Name != "" then d.s3Secret else "")
            && s.restorePoint == (if d.s3Name != "" || d.nfs.Some? then d.restorePoint else "")
            && (d.nfs.None? ==> s.restoreFrom == d.s3Name && s.nfsServerAddress == "")
            && (d.nfs.Some? ==> s.restoreFrom == d.nfs.value.name &&
                                s.nfsServerAddress == d.nfs.value.server + ":" + d.nfs.value.path)
  {
  }

  // There and back.

  function RoundTrip(q: Quantities, in_: AlphaSpec): Option<AlphaSpec> {
    match ToBeta(q, in_)
    case None => None
    case Some(b) => Some(ToAlpha(b))
  }

  /** No size of the spec is a zero quantity. */
  predicate SizesNonzero(q: Quantities, s: AlphaSpec) {
    && q(s.persistence.size) != Some("0")
    && (s.mysqlOpts.logfilePVC.Some? ==> q(s.mysqlOpts.logfilePVC.value.size) != Some("0"))
  }

  /** A converted size is written in canonical text, or empty if it was zero. */
  lemma SizeIsNormal(q: Quantities, size: string)
    requires q(size).Some?
    ensures var written := FormatQuantity(q(size).value);
            written != "" ==> q(written) == Some(written) && FormatQuantity(written) == written
    ensures FormatQuantity(q(size).value) == "" <==> q(size) == Some("0")
  {
    assert CanonicalText(q);
  }

  /** Converting there and back a second time changes nothing exactly when no size is zero; else it panics. */
  lemma RoundTripIsNormalForm(q: Quantities, s: AlphaSpec)
    requires RoundTrip(q, s).Some?
    ensures RoundTrip(q, RoundTrip(q, s).value) == if SizesNonzero(q, s) then RoundTrip(q, s) else None
  {
    assert CanonicalText(q);
    SizeIsNormal(q, s.persistence.size);
    if s.mysqlOpts.logfilePVC.Some? {
      SizeIsNormal(q, s.mysqlOpts.logfilePVC.value.size);
    }
    AddressIsNormal(s.nfsServerAddress);
  }

  /** The fields that have no counterpart hold their zero values. */
  predicate NothingToLose(s: AlphaSpec) {
    var m, p := s.mysqlOpts, s.podPolicy;
    && m.maxLagSeconds == 0 && m.password == "" && m.rootPassword == "" && m.rootHost == ""
    && m.database == "" && !m.initTokuDB && !s.xenonOpts.enableAutoRebuild
    && p.labels == "" && p.annotations == "" && p.schedulerName == ""
    && !s.persistence.enabled && s.backupSchedule == "" && s.bothS3NFS == "" && s.historyLimit == None
  }

  predicate CanonicalSize(q: Quantities, size: string) {
    size != "" && size != "0" && q(size) == Some(size)
  }

  /** The restore settings are complete: a source names what to restore, and nothing is named without one. */
  predicate RestoreComplete(s: AlphaSpec) {
    && (s.backupSecretName != "" ==> s.restoreFrom != "")
    && (s.backupSecretName == "" && s.nfsServerAddress == "" ==> s.restoreFrom == "" && s.restorePoint == "")
    && (s.nfsServerAddress != "" ==> |Split(s.nfsServerAddress, ':')| == 2)
  }

  /** A spec survives the round trip unchanged exactly under these conditions. */
  lemma RoundTripIsIdentity(q: Quantities, s: AlphaSpec)
    ensures RoundTrip(q, s) == Some(s) <==>
            && NothingToLose(s) && RestoreComplete(s) && CanonicalSize(q, s.persistence.size)
            && (s.mysqlOpts.logfilePVC.Some? ==> CanonicalSize(q, s.mysqlOpts.logfilePVC.value.size))
  {
    assert CanonicalText(q);
    AddressSurvives(s.nfsServerAddress);
  }
}
