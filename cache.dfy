/**
 * CacheManager of utils.py: one file per key holding a value and its expiry
 * instant. Files are a map from key to contents; the clock is an explicit
 * parameter in microseconds (the resolution of Python's datetime).
 */
module Cache {
  import opened Wrappers
  import opened Sermons
  import Config

  const MicrosPerHour: nat := 3_600_000_000

  /** How long a written entry stays fresh. */
  const Duration: nat := Config.CacheDurationHours * MicrosPerHour

  /** A cached value is always a ranked list here: `rank_sermons` is the only writer. */
  type Value = seq<Sermon>

  /** What one cache file holds: a value with its expiry instant, or contents that cannot be loaded. */
  datatype CacheFile = Entry(value: Value, expiresAt: int) | Unreadable

  /** The entry for `key` exists, loads, and its expiry lies strictly before `now`. */
  predicate Expired(files: map<string, CacheFile>, key: string, now: int) {
    key in files && files[key].Entry? && now > files[key].expiresAt
  }

  /** What `get(key)` returns at instant `now`. */
  function Lookup(files: map<string, CacheFile>, key: string, now: int): Option<Value> {
    if key !in files then None
    else match files[key]
      case Unreadable => None
      case Entry(v, expiresAt) => if now > expiresAt then None else Some(v)
  }

  /** The files after `get(key)` at instant `now`: an expired entry is removed, nothing else changes. */
  function AfterLookup(files: map<string, CacheFile>, key: string, now: int): map<string, CacheFile> {
    if Expired(files, key, now) then files - {key} else files
  }

  /** The files after `set(key, value)` at instant `now`. */
  function Stored(files: map<string, CacheFile>, key: string, value: Value, now: int): map<string, CacheFile> {
    files[key := Entry(value, now + Duration)]
  }

  /** A missing key reads as None and changes nothing. */
  lemma LookupMissing(files: map<string, CacheFile>, key: string, now: int)
    requires key !in files
    ensures Lookup(files, key, now) == None && AfterLookup(files, key, now) == files
  {
  }

  /** An expired entry reads as None, is removed, and so a second read is None too, whenever it happens. */
  lemma ExpiredEvicted(files: map<string, CacheFile>, key: string, now: int, later: int)
    requires Expired(files, key, now)
    ensures Lookup(files, key, now) == None
    ensures key !in AfterLookup(files, key, now)
    ensures Lookup(AfterLookup(files, key, now), key, later) == None
  {
  }

  /** The expiry comparison is strict: at exactly the expiry instant the value is still returned. */
  lemma FreshAtExpiry(files: map<string, CacheFile>, key: string)
    requires key in files && files[key].Entry?
    ensures Lookup(files, key, files[key].expiresAt) == Some(files[key].value)
    ensures AfterLookup(files, key, files[key].expiresAt) == files
  {
  }

  /** A read after a write returns the written value exactly while the duration has not run out. */
  lemma LookupAfterStore(files: map<string, CacheFile>, key: string, value: Value, written: int, now: int)
    ensures Lookup(Stored(files, key, value, written), key, now) == (if now <= written + Duration then Some(value) else None)
  {
  }

  /** Reads and writes of one key leave every other key alone. */
  lemma OtherKeysUntouched(files: map<string, CacheFile>, key: string, other: string, value: Value, now: int)
    requires other != key
    ensures Lookup(AfterLookup(files, key, now), other, now) == Lookup(files, other, now)
    ensures Lookup(Stored(files, key, value, now), other, now) == Lookup(files, other, now)
  {
  }

  class CacheManager {
    /** The cache directory: one file per key. */
    var files: map<string, CacheFile>

    /** The directory may already hold files from earlier runs. */
    constructor (existing: map<string, CacheFile>)
      ensures files == existing
    {
      files := existing;
    }

    /** `get(key)`: None for a missing or unreadable file; an expired entry is deleted and reads as None. */
    method Get(key: string, now: int) returns (v: Option<Value>)
      modifies this
      ensures v == Lookup(old(files), key, now)
      ensures files == AfterLookup(old(files), key, now)
    {
      if key !in files {
        return None;
      }
      match files[key]
      case Unreadable =>
        v := None;
      case Entry(value, expiresAt) =>
        if now > expiresAt {
          files := files - {key};
          v := None;
        } else {
          v := Some(value);
        }
    }

    /** `set(key, value)`: the file is overwritten with an expiry `Duration` after `now`. */
    method Set(key: string, value: Value, now: int)
      modifies this
      ensures files == Stored(old(files), key, value, now)
    {
      files := files[key := Entry(value, now + Duration)];
    }
  }
}
