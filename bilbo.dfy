/**
 * The client side of src/bilbo/bilbo.ts: `LogEntry`, a reusable entry with
 * its setters and `reset`, and the pool of `Bilbo`, from which entries are
 * taken, filled with a level, a time and a message, and to which they return
 * empty once written to the socket. The socket is the sequence of strings
 * written to it, the serialiser (`JSON.stringify`) a parameter and
 * `Date.now()` an argument.
 */
module Bilbos {
  import opened Wrappers
  import opened Entries

  /** The levels of `LoggerMandatory`. */
  datatype Severity = Debug | Info | Warn | Error | Fatal

  /** The name a level is sent under. */
  function Name(s: Severity): (r: string)
    ensures SeverityOf(r) == Some(s)
  {
    match s
    case Debug => "DEBUG"
    case Info => "INFO"
    case Warn => "WARN"
    case Error => "ERROR"
    case Fatal => "FATAL"
  }

  /** The level a name stands for, if any. */
  function SeverityOf(name: string): Option<Severity>
  {
    if name == "DEBUG" then Some(Debug)
    else if name == "INFO" then Some(Info)
    else if name == "WARN" then Some(Warn)
    else if name == "ERROR" then Some(Error)
    else if name == "FATAL" then Some(Fatal)
    else None
  }

  /** Different levels are sent under different names. */
  lemma NamesDistinct(a: Severity, b: Severity)
    requires a != b
    ensures Name(a) != Name(b)
  {
    assert SeverityOf(Name(a)) == Some(a) && SeverityOf(Name(b)) == Some(b);
  }

  /** The entry `Bilbo.level(level, message)` hands out when the pool keeps only empty entries. */
  function Opened(level: Severity, message: string, at: int): (e: Entry)
    ensures UniqueKeys(e) && Keys(e) == ["level", "at", "message"]
    ensures Lookup(e, "level") == Some(Str(Name(level)))
    ensures Lookup(e, "at") == Some(Num(at)) && Lookup(e, "message") == Some(Str(message))
  {
    SetThree("level", Str(Name(level)), "at", Num(at), "message", Str(message));
    Set(Set(Set([], "level", Str(Name(level))), "at", Num(at)), "message", Str(message))
  }

  /** A log entry; `entry` is `_entry`. */
  class LogEntry {
    var entry: Entry

    /** The entry is a JavaScript object: each key once. */
    ghost predicate Valid()
      reads this
    {
      UniqueKeys(entry)
    }

    /** A new entry is empty. */
    constructor ()
      ensures entry == [] && Valid()
    {
      entry := [];
    }

    /** `level(level)`: sets the level and nothing else, and returns the entry. */
    method Level(level: Severity) returns (self: LogEntry)
      requires Valid()
      modifies this
      ensures self == this && Valid() && entry == Set(old(entry), "level", Str(Name(level)))
    {
      entry := Set(entry, "level", Str(Name(level)));
      self := this;
    }

    /** `message(message)`: sets the message and nothing else, and returns the entry. */
    method Message(message: string) returns (self: LogEntry)
      requires Valid()
      modifies this
      ensures self == this && Valid() && entry == Set(old(entry), "message", Str(message))
    {
      entry := Set(entry, "message", Str(message));
      self := this;
    }

    /** `at(at)`: sets the time and nothing else, and returns the entry. */
    method At(at: int) returns (self: LogEntry)
      requires Valid()
      modifies this
      ensures self == this && Valid() && entry == Set(old(entry), "at", Num(at))
    {
      entry := Set(entry, "at", Num(at));
      self := this;
    }

    /** `field(key, val)`: sets one key, which may be any key of the entry, and returns the entry. */
    method Field(key: string, val: Value) returns (self: LogEntry)
      requires Valid()
      modifies this
      ensures self == this && Valid() && entry == Set(old(entry), key, val)
    {
      entry := Set(entry, key, val);
      self := this;
    }

    /** `reset()`: deletes every key, one after the other. */
    method Reset()
      requires Valid()
      modifies this
      ensures entry == [] && Valid()
    {
      ghost var e0 := entry;
      var keys := Keys(entry);
      var i := 0;
      while i < |keys|
        invariant 0 <= i <= |keys| == |e0|
        invariant entry == e0[i..]
      {
        KeyAt(e0, i);
        DeleteStep(e0, i);
        entry := Delete(entry, keys[i]);
        i := i + 1;
      }
    }
  }

  /**
   * A client. `pool` is `log_pool`, its last element the top; `sent` is every
   * string written to the socket, in order.
   */
  class Bilbo {
    const serialise: Entry -> string
    var pool: seq<LogEntry>
    var sent: seq<string>

    /** Every pooled entry is empty, and no entry is pooled twice. */
    ghost predicate Valid()
      reads this, pool
    {
      && (forall k :: 0 <= k < |pool| ==> pool[k].entry == [])
      && (forall j, k :: 0 <= j < k < |pool| ==> pool[j] != pool[k])
    }

    /** A client whose pool is empty and which has sent nothing. */
    constructor (serialise: Entry -> string)
      ensures Valid() && pool == [] && sent == [] && this.serialise == serialise
    {
      this.serialise := serialise;
      pool := [];
      sent := [];
    }

    /**
     * `get_log_from_pool()`: the most recently returned entry, taken off the
     * pool, or a new one when the pool is empty. Either way it is empty.
     */
    method GetLogFromPool() returns (log: LogEntry)
      requires Valid()
      modifies this
      ensures Valid() && log.entry == [] && log !in pool && sent == old(sent)
      ensures old(pool) != [] ==> log == old(pool)[|old(pool)| - 1] && pool == old(pool)[..|old(pool)| - 1]
      ensures old(pool) == [] ==> fresh(log) && pool == []
    {
      if pool != [] {
        log := pool[|pool| - 1];
        pool := pool[..|pool| - 1];
      } else {
        log := new LogEntry();
      }
    }

    /**
     * `return_log_to_pool(log)`: empties the entry and pushes it. The pool
     * stays valid when the entry was not already in it.
     */
    method ReturnLogToPool(log: LogEntry)
      requires Valid() && log.Valid()
      modifies this, log
      ensures pool == old(pool) + [log] && log.entry == [] && sent == old(sent)
      ensures log !in old(pool) ==> Valid()
    {
      log.Reset();
      pool := pool + [log];
    }

    /**
     * `level(level, message)`: an entry from the pool holding exactly the
     * level, the time `now` and the message.
     */
    method Level(level: Severity, message: string, now: int) returns (log: LogEntry)
      requires Valid()
      modifies this, pool
      ensures Valid() && log !in pool && sent == old(sent)
      ensures log.entry == Opened(level, message, now)
      ensures old(pool) != [] ==> log == old(pool)[|old(pool)| - 1] && pool == old(pool)[..|old(pool)| - 1]
      ensures old(pool) == [] ==> fresh(log) && pool == []
    {
      log := GetLogFromPool();
      assert forall k :: 0 <= k < |pool| ==> pool[k] != log;
      var _ := log.Field("level", Str(Name(level)));
      var _ := log.Field("at", Num(now));
      var _ := log.Field("message", Str(message));
    }

    /** `DEBUG(message)`. */
    method Debug(message: string, now: int) returns (log: LogEntry)
      requires Valid()
      modifies this, pool
      ensures Valid() && log !in pool && sent == old(sent) && log.entry == Opened(Severity.Debug, message, now)
    {
      log := Level(Severity.Debug, message, now);
    }

    /** `INFO(message)`. */
    method Info(message: string, now: int) returns (log: LogEntry)
      requires Valid()
      modifies this, pool
      ensures Valid() && log !in pool && sent == old(sent) && log.entry == Opened(Severity.Info, message, now)
    {
      log := Level(Severity.Info, message, now);
    }

    /** `WARN(message)`. */
    method Warn(message: string, now: int) returns (log: LogEntry)
      requires Valid()
      modifies this, pool
      ensures Valid() && log !in pool && sent == old(sent) && log.entry == Opened(Severity.Warn, message, now)
    {
      log := Level(Severity.Warn, message, now);
    }

    /** `ERROR(message)`. */
    method Error(message: string, now: int) returns (log: LogEntry)
      requires Valid()
      modifies this, pool
      ensures Valid() && log !in pool && sent == old(sent) && log.entry == Opened(Severity.Error, message, now)
    {
      log := Level(Severity.Error, message, now);
    }

    /** `FATAL(message)`. */
    method Fatal(message: string, now: int) returns (log: LogEntry)
      requires Valid()
      modifies this, pool
      ensures Valid() && log !in pool && sent == old(sent) && log.entry == Opened(Severity.Fatal, message, now)
    {
      log := Level(Severity.Fatal, message, now);
    }

    /**
     * `log_to_loggings(log)`, which `LogEntry.log()` calls: writes the entry
     * as one serialised line to the socket, then returns it to the pool.
     */
    method LogToLoggings(log: LogEntry)
      requires Valid() && log.Valid()
      modifies this, log
      ensures sent == old(sent) + [serialise(old(log.entry)) + "\n"]
      ensures pool == old(pool) + [log] && log.entry == []
      ensures log !in old(pool) ==> Valid()
    {
      sent := sent + [serialise(log.entry) + "\n"];
      ReturnLogToPool(log);
    }
  }
}
