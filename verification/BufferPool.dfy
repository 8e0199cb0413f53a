/**
 Sizing of the InnoDB buffer pool: the defaults written into the MySQL configuration of the cluster, and
 the same computation for read-only pods. Sizes are unsigned 64-bit; a percentage of the memory is
 taken exactly and rounded down.
 */
module BufferPool {
  import opened GoStrings

  const KB: nat := 1024
  const MB: nat := 1024 * 1024
  const GB: nat := 1024 * 1024 * 1024
  const MIN_POOL: nat := 128 * MB
  const DEFAULT_LOG_FILE_SIZE: nat := 1073741824

  const POOL_SIZE := "innodb_buffer_pool_size"
  const POOL_INSTANCES := "innodb_buffer_pool_instances"
  const LOG_FILE_SIZE := "innodb_log_file_size"
  const LOG_FILE_GROUPS := "innodb_log_file_groups"

  function Min(a: int, b: int): int {
    if a < b then a else b
  }

  function Max(a: int, b: int): int {
    if a > b then a else b
  }

  function Percent(mem: nat, p: nat): nat {
    mem * p / 100
  }

  function DefaultSize(mem: nat): nat {
    if mem <= GB then Percent(mem, 45) else Percent(mem, 60)
  }

  function MaxSize(mem: nat): nat {
    if mem <= GB then Percent(mem, 60) else Percent(mem, 80)
  }

  // Reading a configured size.

  predicate IsSpace(c: char) {
    || c == ' ' || '\U{9}' <= c <= '\U{D}' || c == '\U{85}' || c == '\U{A0}' || c == '\U{1680}'
    || '\U{2000}' <= c <= '\U{200A}' || c == '\U{2028}' || c == '\U{2029}' || c == '\U{202F}'
    || c == '\U{205F}' || c == '\U{3000}'
  }

  function TrimSpace(s: string): string
    decreases |s|
  {
    if s != "" && IsSpace(s[0]) then TrimSpace(s[1..])
    else if s != "" && IsSpace(s[|s| - 1]) then TrimSpace(s[..|s| - 1])
    else s
  }

  function ToUpper(s: string): string {
    seq(|s|, i requires 0 <= i < |s| =>
      if 'a' <= s[i] <= 'z' then (s[i] as int - 'a' as int + 'A' as int) as char else s[i])
  }

  predicate IsLetter(c: char) {
    'a' <= c <= 'z' || 'A' <= c <= 'Z'
  }

  /** The position of the first letter, or the length. */
  function LetterIndex(s: string): (i: nat)
    ensures i <= |s|
  {
    if s == "" || IsLetter(s[0]) then 0 else 1 + LetterIndex(s[1..])
  }

  /** A number with an optional unit K, M or G; the product wraps around at 2^64. */
  function SizeToBytes(conf: string): Option<nat> {
    var s := ToUpper(TrimSpace(conf));
    var idx := LetterIndex(s);
    if idx == |s| then ParseUint(s)
    else
      var nums := ParseUint(s[..idx]);
      if nums.None? then None
      else if s[idx..] == "K" then Some(nums.value * KB % (MAX_UINT + 1))
      else if s[idx..] == "M" then Some(nums.value * MB % (MAX_UINT + 1))
      else if s[idx..] == "G" then Some(nums.value * GB % (MAX_UINT + 1))
      else None
  }

  /** A size that was written as plain digits is read back. */
  lemma ReadBack(n: nat)
    requires n <= MAX_UINT
    ensures SizeToBytes(Itoa(n)) == Some(n)
  {
    ParseItoa(n);
    assert TrimSpace(Itoa(n)) == Itoa(n);
    assert ToUpper(Itoa(n)) == Itoa(n);
    NoLetters(Itoa(n));
  }

  lemma {:induction false} NoLetters(s: string)
    requires forall c | c in s :: IsDigit(c)
    ensures LetterIndex(s) == |s|
  {
    if s != "" {
      assert s[0] in s;
      NoLetters(s[1..]);
    }
  }

  // The computed settings.

  function Lookup(conf: map<string, string>, k: string): Option<string> {
    if k in conf then Some(conf[k]) else None
  }

  /** The size the user configured, when there is one and it can be read. */
  function Configured(conf: map<string, string>): Option<nat> {
    if POOL_SIZE in conf then SizeToBytes(conf[POOL_SIZE]) else None
  }

  function PoolSize(mem: nat, configured: Option<nat>): nat {
    match configured
    case None => Max(DefaultSize(mem), MIN_POOL)
    case Some(n) => Min(Max(n, MIN_POOL), MaxSize(mem))
  }

  /** `cpu` is in thousandths. */
  function Instances(cpu: nat, pool: nat): nat {
    Max(Min((cpu + 999) / 1000, pool / GB), 1)
  }

  /** The number of log groups, as the unsigned number the size is divided by. */
  function LogGroups(conf: map<string, string>): nat {
    var groups := if LOG_FILE_GROUPS in conf then Atoi(conf[LOG_FILE_GROUPS]) else None;
    match groups
    case None => 1
    case Some(g) => if g >= 0 then g else MAX_UINT + 1 + g
  }

  /** None stands for the division by zero. */
  function LogFileSize(pool: nat, groups: nat): Option<nat> {
    if pool < 8 * GB then if groups == 0 then None else Some(512 * MB / groups)
    else if pool <= 128 * GB then Some(GB)
    else Some(2 * GB)
  }

  // The configuration map after each part of the computation.

  function WithPool(conf: map<string, string>, mem: nat, cpu: nat): map<string, string> {
    var pool := PoolSize(mem, Configured(conf));
    conf[POOL_SIZE := Itoa(pool)][POOL_INSTANCES := Itoa(Instances(cpu, pool))]
  }

  /** The log file size is computed only when it is absent, and capped by the volume; None is a panic. */
  function WithLogFile(conf: map<string, string>, pool: nat, volume: Option<nat>): Option<map<string, string>> {
    if LOG_FILE_SIZE in conf then Some(conf)
    else
      var size := LogFileSize(pool, LogGroups(conf));
      if size.None? then None
      else if volume.None? then Some(conf)
      else
        var fits := size.value <= volume.value / 2;
        Some(conf[LOG_FILE_SIZE := Itoa(if fits then size.value else DEFAULT_LOG_FILE_SIZE)])
  }

  /** The test looks for one spelling, the setting uses the other. */
  function WithLogError(conf: map<string, string>, logfilePvc: bool): map<string, string> {
    if "log_error" !in conf && logfilePvc then conf["log-error" := "/var/log/mysql/mysql-error.log"] else conf
  }

  function Ensured(conf: map<string, string>, mem: nat, cpu: nat, volume: Option<nat>, logfilePvc: bool)
    : Option<map<string, string>>
  {
    match WithLogFile(WithPool(conf, mem, cpu), PoolSize(mem, Configured(conf)), volume)
    case None => None
    case Some(c) => Some(WithLogError(c, logfilePvc))
  }

  class MysqlCluster {
    const mem: nat                    // requested memory in bytes
    const cpu: nat                    // processor limit in thousandths
    const volume: Option<nat>         // size of the persistent volume, when it can be parsed
    const logfilePvc: bool
    var conf: map<string, string>

    constructor (mem: nat, cpu: nat, volume: Option<nat>, logfilePvc: bool, conf: map<string, string>)
      ensures this.mem == mem && this.cpu == cpu && this.volume == volume && this.logfilePvc == logfilePvc
      ensures this.conf == conf
    {
      this.mem, this.cpu, this.volume, this.logfilePvc, this.conf := mem, cpu, volume, logfilePvc, conf;
    }

    /** First part: the pool size and its instances. */
    method SetPool() returns (pool: nat)
      modifies this
      ensures pool == PoolSize(mem, Configured(old(conf))) && conf == WithPool(old(conf), mem, cpu)
    {
      hide SizeToBytes, Itoa, Percent, Instances;
      pool := MIN_POOL;
      var defaultSize, maxSize: nat;
      if mem <= GB {
        defaultSize, maxSize := Percent(mem, 45), Percent(mem, 60);
      } else {
        defaultSize, maxSize := Percent(mem, 60), Percent(mem, 80);
      }
      if POOL_SIZE !in conf {
        pool := Max(defaultSize, pool);
      } else {
        var nums := SizeToBytes(conf[POOL_SIZE]);
        if nums.None? {
          pool := Max(defaultSize, pool);
        } else {
          pool := Min(Max(nums.value, pool), maxSize);
        }
      }
      conf := conf[POOL_SIZE := Itoa(pool)];
      conf := conf[POOL_INSTANCES := Itoa(Instances(cpu, pool))];
    }

    /** Second part: the log file size, unless it is set already. */
    method SetLogFile(pool: nat) returns (ok: bool)
      modifies this
      ensures ok == WithLogFile(old(conf), pool, volume).Some?
      ensures conf == if ok then WithLogFile(old(conf), pool, volume).value else old(conf)
    {
      hide Atoi, Itoa, LogGroups;
      if LOG_FILE_SIZE in conf { return true; }
      var groups, size: nat := LogGroups(conf), 0;
      if pool < 8 * GB {
        if groups == 0 { return false; }
        size := 512 * MB / groups;
      } else if pool <= 128 * GB {
        size := GB;
      } else {
        size := 2 * GB;
      }
      if volume.Some? {
        if volume.value / 2 < size { size := DEFAULT_LOG_FILE_SIZE; }
        conf := conf[LOG_FILE_SIZE := Itoa(size)];
      }
      return true;
    }

    /** Fills in the settings; false is the panic of a division by zero log groups. */
    method EnsureMysqlConf() returns (ok: bool)
      modifies this
      ensures ok == Ensured(old(conf), mem, cpu, volume, logfilePvc).Some?
      ensures ok ==> conf == Ensured(old(conf), mem, cpu, volume, logfilePvc).value
      ensures !ok ==> conf == WithPool(old(conf), mem, cpu)
    {
      hide WithPool, WithLogFile, PoolSize;
      var pool := SetPool();
      ok := SetLogFile(pool);
      if !ok { return; }
      if "log_error" !in conf {
        if logfilePvc { conf := conf["log-error" := "/var/log/mysql/mysql-error.log"]; }
      }
    }
  }

  /** The same three settings for a read-only pod; they do not look at a configured size. */
  function CalcInnodbParam(mem: nat, cpu: nat, conf: map<string, string>): Option<(string, string, string)> {
    var defaultSize := if mem <= GB then Percent(mem, 45) else Percent(mem, 60);
    var pool := Max(defaultSize, MIN_POOL);
    var size := LogFileSize(pool, LogGroups(conf));
    if size.None? then None else Some((Itoa(pool), Itoa(Instances(cpu, pool)), Itoa(size.value)))
  }

  // Results.

  lemma SizesInOrder(mem: nat)
    ensures DefaultSize(mem) <= MaxSize(mem) <= mem
  {
    assert mem * 45 / 100 <= mem * 60 / 100 <= mem * 80 / 100 <= mem;
  }

  /** The settings of one application that the next one reads or that are compared below. */
  lemma EnsuredSettings(conf: map<string, string>, mem: nat, cpu: nat, volume: Option<nat>, logfilePvc: bool)
    requires mem <= MAX_INT && Ensured(conf, mem, cpu, volume, logfilePvc).Some?
    ensures var c, pool := Ensured(conf, mem, cpu, volume, logfilePvc).value, PoolSize(mem, Configured(conf));
            && Lookup(c, POOL_SIZE) == Some(Itoa(pool))
            && Lookup(c, POOL_INSTANCES) == Some(Itoa(Instances(cpu, pool)))
            && Configured(c) == Some(pool)
            && Ensured(c, mem, cpu, volume, logfilePvc).Some?
  {
    hide SizeToBytes, Atoi, Itoa, Percent, Instances;
    KeysDiffer();
    SizesInOrder(mem);
    SettingReadBack(mem, Configured(conf));
    var c := Ensured(conf, mem, cpu, volume, logfilePvc).value;
    assert LOG_FILE_SIZE in conf ==> LOG_FILE_SIZE in c;
    assert Lookup(c, LOG_FILE_GROUPS) == Lookup(conf, LOG_FILE_GROUPS);
  }

  lemma KeysDiffer()
    ensures |POOL_SIZE| == 23 && |POOL_INSTANCES| == 28 && |LOG_FILE_SIZE| == 20 && |LOG_FILE_GROUPS| == 22
    ensures |"log-error"| == 9
  {
  }

  lemma SettingReadBack(mem: nat, configured: Option<nat>)
    requires mem <= MAX_INT
    ensures SizeToBytes(Itoa(PoolSize(mem, configured))) == Some(PoolSize(mem, configured))
  {
    SizesInOrder(mem);
    ReadBack(PoolSize(mem, configured));
  }

  /**
   Applied again and again to its own result, the computation keeps the pool size from the second
   application on; from the first on exactly if a size was configured or the minimum fits the memory.
   */
  lemma FixedAfterTwo(conf: map<string, string>, mem: nat, cpu: nat, volume: Option<nat>, logfilePvc: bool)
    returns (one: map<string, string>, two: map<string, string>, three: map<string, string>)
    requires mem <= MAX_INT && Ensured(conf, mem, cpu, volume, logfilePvc).Some?
    ensures Some(one) == Ensured(conf, mem, cpu, volume, logfilePvc)
    ensures Some(two) == Ensured(one, mem, cpu, volume, logfilePvc)
    ensures Some(three) == Ensured(two, mem, cpu, volume, logfilePvc)
    ensures Lookup(three, POOL_SIZE) == Lookup(two, POOL_SIZE)
    ensures Lookup(two, POOL_SIZE) == Lookup(one, POOL_SIZE) <==>
            Configured(conf).Some? || MIN_POOL <= MaxSize(mem)
  {
    hide Ensured, Itoa, SizeToBytes, Instances;
    one := Ensured(conf, mem, cpu, volume, logfilePvc).value;
    EnsuredSettings(conf, mem, cpu, volume, logfilePvc);
    two := Ensured(one, mem, cpu, volume, logfilePvc).value;
    EnsuredSettings(one, mem, cpu, volume, logfilePvc);
    three := Ensured(two, mem, cpu, volume, logfilePvc).value;
    EnsuredSettings(two, mem, cpu, volume, logfilePvc);
    SizesInOrder(mem);
    var p, q := PoolSize(mem, Configured(conf)), PoolSize(mem, Configured(one));
    if Itoa(p) == Itoa(q) { ItoaInjective(p, q); }
  }

  /** Without a readable configured size, the main and the read-only computation agree on pool and instances. */
  lemma AgreesWithReadOnly(conf: map<string, string>, mem: nat, cpu: nat, volume: Option<nat>, logfilePvc: bool)
    requires mem <= MAX_INT && Configured(conf).None?
    requires Ensured(conf, mem, cpu, volume, logfilePvc).Some? && CalcInnodbParam(mem, cpu, conf).Some?
    ensures var c, r := Ensured(conf, mem, cpu, volume, logfilePvc).value, CalcInnodbParam(mem, cpu, conf).value;
            Lookup(c, POOL_SIZE) == Some(r.0) && Lookup(c, POOL_INSTANCES) == Some(r.1)
  {
    EnsuredSettings(conf, mem, cpu, volume, logfilePvc);
  }

  // What the numbers are.

  lemma {:induction false} FirstLetter(digits: string, unit: char)
    requires (forall c | c in digits :: IsDigit(c)) && IsLetter(unit)
    ensures LetterIndex(digits + [unit]) == |digits|
  {
    if digits != "" {
      assert digits[0] in digits;
      assert (digits + [unit])[1..] == digits[1..] + [unit];
      FirstLetter(digits[1..], unit);
    } else {
      assert digits + [unit] == [unit];
    }
  }

  function Upper(unit: char): char {
    if 'a' <= unit <= 'z' then (unit as int - 'a' as int + 'A' as int) as char else unit
  }

  lemma UnitText(digits: string, unit: char)
    requires digits != "" && (forall c | c in digits :: IsDigit(c)) && IsLetter(unit)
    ensures ToUpper(TrimSpace(digits + [unit])) == digits + [Upper(unit)]
  {
    assert digits[0] in digits && forall i | 0 <= i < |digits| :: digits[i] in digits;
    assert TrimSpace(digits + [unit]) == digits + [unit];
    assert ToUpper(digits + [unit]) == digits + [Upper(unit)];
  }

  /** A number with a unit, in either case: 2^10, 2^20 or 2^30 bytes, and nothing else. */
  lemma UnitsOfSize(n: nat, unit: char)
    requires n * 0x4000_0000 <= MAX_UINT && IsLetter(unit)
    ensures SizeToBytes(Itoa(n) + [unit]) ==
            if unit in {'K', 'k'} then Some(n * 0x400)
            else if unit in {'M', 'm'} then Some(n * 0x10_0000)
            else if unit in {'G', 'g'} then Some(n * 0x4000_0000)
            else None
  {
    hide TrimSpace, ToUpper, Itoa, ParseDigits, LetterIndex;
    var digits, u := Itoa(n), Upper(unit);
    UnitText(digits, unit);
    FirstLetter(digits, u);
    assert (digits + [u])[..|digits|] == digits && (digits + [u])[|digits|..] == [u];
    ParseItoa(n);
    UnitSize(n, u);
  }

  lemma UnitSize(n: nat, u: char)
    requires n * 0x4000_0000 <= MAX_UINT
    ensures n * KB % (MAX_UINT + 1) == n * 0x400
    ensures n * MB % (MAX_UINT + 1) == n * 0x10_0000
    ensures n * GB % (MAX_UINT + 1) == n * 0x4000_0000
    ensures [u] == "K" <==> u == 'K'
    ensures [u] == "M" <==> u == 'M'
    ensures [u] == "G" <==> u == 'G'
  {
  }

  /** Up to one gigabyte of memory 45% of it by default and 60% at most, beyond that 60% and 80%, in whole bytes. */
  lemma PercentagesExactly(mem: nat)
    ensures var d, m := if mem <= 0x4000_0000 then 45 else 60, if mem <= 0x4000_0000 then 60 else 80;
            && 100 * DefaultSize(mem) <= d * mem < 100 * (DefaultSize(mem) + 1)
            && 100 * MaxSize(mem) <= m * mem < 100 * (MaxSize(mem) + 1)
  {
    assert forall p: nat :: 100 * (mem * p / 100) <= mem * p < 100 * (mem * p / 100 + 1);
  }

  /** The pool without a readable size, and with one. */
  lemma PoolExactly(mem: nat, configured: Option<nat>)
    ensures configured.None? ==>
              PoolSize(mem, configured) ==
              if DefaultSize(mem) < 128 * 0x10_0000 then 128 * 0x10_0000 else DefaultSize(mem)
    ensures configured.Some? ==>
              var wanted := if configured.value < 128 * 0x10_0000 then 128 * 0x10_0000 else configured.value;
              PoolSize(mem, configured) == if MaxSize(mem) < wanted then MaxSize(mem) else wanted
  {
  }

  /** The largest number of instances that are whole gigabytes of the pool and begun processors, but at least one. */
  lemma InstancesExactly(cpu: nat, pool: nat, n: nat)
    ensures n <= Instances(cpu, pool) <==> n <= 1 || (n * 0x4000_0000 <= pool && (n - 1) * 1000 < cpu)
  {
    assert n <= pool / GB <==> n * GB <= pool;
    assert n <= (cpu + 999) / 1000 <==> n * 1000 <= cpu + 999;
  }

  /** The log file size by the size of the pool: only pools below 8 GiB divide it among the groups. */
  lemma LogFileSizeExactly(pool: nat, groups: nat)
    ensures pool < 8 * 0x4000_0000 ==>
              (LogFileSize(pool, groups).None? <==> groups == 0) &&
              (groups > 0 ==> var size := LogFileSize(pool, groups).value;
                              size * groups <= 0x2000_0000 < (size + 1) * groups)
    ensures 8 * 0x4000_0000 <= pool <= 128 * 0x4000_0000 ==> LogFileSize(pool, groups) == Some(0x4000_0000)
    ensures pool > 128 * 0x4000_0000 ==> LogFileSize(pool, groups) == Some(0x8000_0000)
  {
    if groups > 0 { DivisionBounds(512 * MB, groups); }
  }

  lemma DivisionBounds(a: nat, b: nat)
    requires b > 0
    ensures a / b * b <= a < (a / b + 1) * b
  {
    assert a == a / b * b + a % b;
  }

  /**
   What becomes of every other setting: a log file size is kept, or set to the computed one if that is at most
   half of the volume and to 1 GiB if it is not; the error log goes to the log volume unless it is configured.
   */
  lemma OtherSettings(conf: map<string, string>, mem: nat, cpu: nat, volume: Option<nat>, logfilePvc: bool, k: string)
    requires Ensured(conf, mem, cpu, volume, logfilePvc).Some? && k != POOL_SIZE && k != POOL_INSTANCES
    ensures var c, pool := Ensured(conf, mem, cpu, volume, logfilePvc).value, PoolSize(mem, Configured(conf));
            Lookup(c, k) ==
            if k == LOG_FILE_SIZE && k !in conf && volume.Some? then
              var size := LogFileSize(pool, LogGroups(conf)).value;
              Some(Itoa(if 2 * size <= volume.value then size else 0x4000_0000))
            else if k == "log-error" && "log_error" !in conf && logfilePvc then Some("/var/log/mysql/mysql-error.log")
            else Lookup(conf, k)
  {
    hide SizeToBytes, Atoi, Itoa, Percent, Instances, PoolSize, LogFileSize;
    KeysDiffer();
    GroupsStay(conf, mem, cpu);
    assert |"log_error"| == 9;
  }

  /**
   Where the main computation sets the log file size, the two fail together, and they agree on the size if
   half of the volume has room for it.
   */
  lemma LogFilesAgree(conf: map<string, string>, mem: nat, cpu: nat, volume: nat, logfilePvc: bool)
    requires Configured(conf).None? && LOG_FILE_SIZE !in conf
    ensures var c, r := Ensured(conf, mem, cpu, Some(volume), logfilePvc), CalcInnodbParam(mem, cpu, conf);
            && (c.Some? <==> r.Some?)
            && (c.Some? && volume >= 0x1_0000_0000 ==> Lookup(c.value, LOG_FILE_SIZE) == Some(r.value.2))
  {
    KeysDiffer();
    var pool, p := PoolSize(mem, None), WithPool(conf, mem, cpu);
    GroupsStay(conf, mem, cpu);
    LogFileSizeBound(pool, LogGroups(conf));
    assert CalcInnodbParam(mem, cpu, conf) ==
           var size := LogFileSize(pool, LogGroups(conf));
           if size.None? then None else Some((Itoa(pool), Itoa(Instances(cpu, pool)), Itoa(size.value)));
    hide CalcInnodbParam, LogFileSize, PoolSize, WithPool, LogGroups, Itoa, Instances, Percent, SizeToBytes;
    if Ensured(conf, mem, cpu, Some(volume), logfilePvc).Some? {
      OtherSettings(conf, mem, cpu, Some(volume), logfilePvc, LOG_FILE_SIZE);
    }
  }

  lemma GroupsStay(conf: map<string, string>, mem: nat, cpu: nat)
    ensures var p := WithPool(conf, mem, cpu);
            && LogGroups(p) == LogGroups(conf)
            && (LOG_FILE_SIZE in p <==> LOG_FILE_SIZE in conf)
  {
    hide SizeToBytes, Atoi, Itoa, Percent, Instances, PoolSize;
    KeysDiffer();
    var p := WithPool(conf, mem, cpu);
    assert Lookup(p, LOG_FILE_GROUPS) == Lookup(conf, LOG_FILE_GROUPS);
  }

  lemma LogFileSizeBound(pool: nat, groups: nat)
    ensures LogFileSize(pool, groups).Some? ==> LogFileSize(pool, groups).value <= 0x8000_0000
  {
    if groups > 0 { assert 512 * MB / groups <= 512 * MB; }
  }

  /** A readable configured size is kept within its bounds, and a pool is split only into whole gigabytes. */
  lemma PoolBounds(mem: nat, cpu: nat, configured: Option<nat>)
    ensures var pool := PoolSize(mem, configured);
            && (configured.Some? ==> pool <= MaxSize(mem) <= mem)
            && (MIN_POOL <= MaxSize(mem) ==> MIN_POOL <= pool <= MaxSize(mem))
            && (configured.Some? && MIN_POOL <= configured.value <= MaxSize(mem) ==> pool == configured.value)
            && Instances(cpu, pool) >= 1
            && (Instances(cpu, pool) > 1 ==>
                  Instances(cpu, pool) * GB <= pool && (Instances(cpu, pool) - 1) * 1000 < cpu)
  {
    SizesInOrder(mem);
  }
}
