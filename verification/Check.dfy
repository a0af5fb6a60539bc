/** Whether a verified backup exists within the freshness window. */
module Check {
  import opened Artifact
  import opened Manifests
  import opened Retention
  import opened RetentionSpec
  import opened Storage
  import opened Timestamp
  import opened Wrappers

  datatype Reason = NoBackups | NoneVerified | TooOld(age: Duration)

  /** The newest backup is not verified, and why. */
  datatype Warning = Unproven(id: string, note: string)

  datatype Report = Report(
    lastVerified: Option<Manifest>,
    lastVerifiedAge: Duration,
    latest: Option<Manifest>,
    healthy: bool,
    reasons: seq<Reason>,
    warnings: seq<Warning>)

  function NoteOf(m: Manifest): string {
    if m.verification.error == "" then "not yet verified" else m.verification.error
  }

  /** Some verified backup is at most maxAge old. */
  ghost predicate Covered(s: Backups, maxAge: Duration, now: Instant) {
    exists m :: m in VerifiedOf(s) && Within(now, m.createdAt, maxAge)
  }

  /** What a report says about the backups it was made from. */
  ghost predicate Answers(rep: Report, s: Backups, maxAge: Duration, now: Instant) {
    && (if rep.latest.Some? then IsNewest(s, rep.latest.value) else s == {})
    && (if rep.lastVerified.Some? then IsNewest(VerifiedOf(s), rep.lastVerified.value) else VerifiedOf(s) == {})
    && (if rep.lastVerified.Some? then Elapsed(rep.lastVerifiedAge, now, rep.lastVerified.value.createdAt)
        else rep.lastVerifiedAge == 0)
    && (rep.healthy <==> Covered(s, maxAge, now))
    && rep.reasons == (if rep.healthy then [] else if s == {} then [NoBackups]
                       else if VerifiedOf(s) == {} then [NoneVerified] else [TooOld(rep.lastVerifiedAge)])
    && rep.warnings == (if rep.latest.Some? && !rep.latest.value.Verified()
                        then [Unproven(rep.latest.value.id, NoteOf(rep.latest.value))] else [])
  }

  /** Coverage is decided by the newest verified backup. */
  lemma NewestDecides(s: Backups, m: Manifest, maxAge: Duration, now: Instant)
    requires IsNewest(VerifiedOf(s), m)
    ensures Covered(s, maxAge, now) <==> Within(now, m.createdAt, maxAge)
  {
    if x :| x in VerifiedOf(s) && Within(now, x.createdAt, maxAge) {
      assert x.createdAt <= m.createdAt;
    }
  }

  method Run(store: Store, maxAge: Duration, now: Instant) returns (r: Option<Report>)
    ensures r.Some? ==> exists keys, ms :: Listed(store.objects, keys, ms) && Answers(r.value, SetOf(ms), maxAge, now)
    ensures r.Some? && LaidOut(store.objects) ==> Answers(r.value, Catalog(store.objects), maxAge, now)
    ensures store.reliable && NoStrays(store.objects) ==> r.Some?
  {
    var loaded, keys := LoadAll(store);
    if loaded.None? {
      return None;
    }
    var rep := Evaluate(loaded.value, maxAge, now);
    r := Some(rep);
  }

  /** The report on a list of manifests: sorts it in place and scans for the first verified one. */
  method Evaluate(loaded: seq<Manifest>, maxAge: Duration, now: Instant) returns (rep: Report)
    ensures Answers(rep, SetOf(loaded), maxAge, now)
  {
    hide Id, Sub;
    var manifests := SortNewestFirst(loaded);
    SameMembers(manifests, loaded);
    var latest, lastVerified := None, None;
    var age: Duration := 0;
    if |manifests| > 0 {
      latest := Some(manifests[0]);
    }
    for i := 0 to |manifests|
      invariant lastVerified == None && age == 0
      invariant forall j :: 0 <= j < i ==> !manifests[j].Verified()
    {
      if manifests[i].Verified() {
        lastVerified := Some(manifests[i]);
        age := Sub(now, manifests[i].createdAt);
        break;
      }
    }
    FirstAreNewest(manifests, latest, lastVerified);
    var reasons := [];
    if |manifests| == 0 {
      reasons := [NoBackups];
    } else if lastVerified.None? {
      reasons := [NoneVerified];
    } else if age > maxAge {
      reasons := [TooOld(age)];
    }
    var warnings := [];
    if latest.Some? && !latest.value.Verified() {
      var note := latest.value.verification.error;
      if note == "" {
        note := "not yet verified";
      }
      warnings := [Unproven(latest.value.id, note)];
    }
    var healthy := lastVerified.Some? && age <= maxAge;
    if lastVerified.Some? {
      NewestDecides(SetOf(loaded), lastVerified.value, maxAge, now);
      SubMeaning(now, lastVerified.value.createdAt, maxAge);
    }
    rep := Report(lastVerified, age, latest, healthy, reasons, warnings);
  }

  lemma SameMembers(a: seq<Manifest>, b: seq<Manifest>)
    requires multiset(a) == multiset(b)
    ensures SetOf(a) == SetOf(b) && (a == [] <==> SetOf(b) == {})
  {
    forall m ensures m in a <==> m in b {
      assert m in a <==> m in multiset(a);
      assert m in b <==> m in multiset(b);
    }
    if a != [] {
      assert a[0] in SetOf(b);
    }
  }

  lemma FirstAreNewest(s: seq<Manifest>, latest: Option<Manifest>, lastVerified: Option<Manifest>)
    requires NewestFirst(s)
    requires latest == if s == [] then None else Some(s[0])
    requires lastVerified.Some? ==> exists i :: FirstVerified(s, i) && lastVerified.value == s[i]
    requires lastVerified.None? ==> !AnyVerified(s)
    ensures latest.Some? ==> IsNewest(SetOf(s), latest.value)
    ensures if lastVerified.Some? then IsNewest(VerifiedOf(SetOf(s)), lastVerified.value) else VerifiedOf(SetOf(s)) == {}
  {
    if latest.Some? {
      assert s[0] in SetOf(s);
    }
    if lastVerified.Some? {
      var i :| FirstVerified(s, i) && lastVerified.value == s[i];
      assert s[i] in VerifiedOf(SetOf(s));
    }
  }

  /** Pruning is invisible to a check: whatever part of the discarded backups goes, every report about
      the store before the prune is a report about the store after it. */
  lemma PruneInvisible(s: Backups, t: Backups, p: Policy, rep: Report, maxAge: Duration, now: Instant)
    requires Distinct(s)
    requires Retained(s, p) <= t <= s
    requires Answers(rep, s, maxAge, now)
    ensures Answers(rep, t, maxAge, now)
  {
    hide Retained;
    NewestSurvive(s, t, p);
    if rep.lastVerified.Some? {
      NewestDecides(s, rep.lastVerified.value, maxAge, now);
      NewestDecides(t, rep.lastVerified.value, maxAge, now);
    }
  }

  /** Conversely the backups determine the report. */
  lemma ReportUnique(s: Backups, a: Report, b: Report, maxAge: Duration, now: Instant)
    requires Distinct(s) && Answers(a, s, maxAge, now) && Answers(b, s, maxAge, now)
    ensures a == b
  {
    if a.lastVerified.Some? {
      assert a.lastVerified.value in s && b.lastVerified.Some? && b.lastVerified.value in s;
      assert a.lastVerified.value.createdAt == b.lastVerified.value.createdAt;
    }
    if a.latest.Some? {
      assert b.latest.Some? && a.latest.value.createdAt == b.latest.value.createdAt;
    }
  }

  /** A verified newest backup that is not from the future and not older than allowed: healthy, and
      nothing to warn about. */
  lemma FreshProofIsHealthy(s: Backups, m: Manifest, rep: Report, maxAge: Duration, now: Instant)
    requires Distinct(s) && m in VerifiedOf(s) && m.createdAt == now && maxAge >= 0
    requires forall x :: x in s ==> x.createdAt <= now
    requires Answers(rep, s, maxAge, now)
    ensures rep.healthy && rep.reasons == [] && rep.warnings == [] && rep.lastVerified == Some(m)
  {
    assert IsNewest(s, m) && IsNewest(VerifiedOf(s), m);
    NewestDecides(s, m, maxAge, now);
  }
}
