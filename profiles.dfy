/**
 * User profiles keyed by user id, and `upsertProfile`: a profile that does
 * not exist yet is created with defaults, one that exists is patched with
 * exactly the fields the caller supplied.
 */
module Profiles {
  import opened Js

  /** The settings columns of a profile row; `displayName` may be null. */
  datatype Profile = Profile(displayName: Option<string>, defaultSessionMinutes: int)

  /** A property of the `updates` object: left `undefined`, or given (possibly as `null`). */
  datatype Field<T> = Absent | Given(value: T)

  datatype ProfileUpdates = ProfileUpdates(
    displayName: Field<Option<string>>,
    defaultSessionMinutes: Field<int>)

  const DefaultSessionMinutes := 30

  /** The `create` branch: `displayName ?? null` and `defaultSessionMinutes ?? 30`. */
  function CreatedProfile(updates: ProfileUpdates): Profile {
    Profile(
      if updates.displayName.Given? then updates.displayName.value else None,
      if updates.defaultSessionMinutes.Given? then updates.defaultSessionMinutes.value else DefaultSessionMinutes)
  }

  /** The `update` branch: only the properties that are not `undefined` are written. */
  function UpdatedProfile(p: Profile, updates: ProfileUpdates): Profile {
    p.(
      displayName := if updates.displayName.Given? then updates.displayName.value else p.displayName,
      defaultSessionMinutes :=
        if updates.defaultSessionMinutes.Given? then updates.defaultSessionMinutes.value else p.defaultSessionMinutes)
  }

  /** Applying `first` and then `second`: a property `second` gives wins. */
  function Then(first: ProfileUpdates, second: ProfileUpdates): ProfileUpdates {
    ProfileUpdates(
      if second.displayName.Given? then second.displayName else first.displayName,
      if second.defaultSessionMinutes.Given? then second.defaultSessionMinutes else first.defaultSessionMinutes)
  }

  /**
   * A new profile has the given display name or none, and the given
   * session length or 30 minutes; `null` is kept as a display name.
   */
  lemma CreateDefaults(updates: ProfileUpdates)
    ensures var p := CreatedProfile(updates);
            && (updates.displayName.Absent? ==> p.displayName.None?)
            && (updates.displayName.Given? ==> p.displayName == updates.displayName.value)
            && (updates.defaultSessionMinutes.Absent? ==> p.defaultSessionMinutes == 30)
            && (updates.defaultSessionMinutes.Given? ==> p.defaultSessionMinutes == updates.defaultSessionMinutes.value)
  {
  }

  /** Creating is patching the default profile (no display name, 30 minutes). */
  lemma CreateIsUpdateOfDefault(updates: ProfileUpdates)
    ensures CreatedProfile(updates) == UpdatedProfile(Profile(None, DefaultSessionMinutes), updates)
  {
  }

  /**
   * An update changes a property exactly when the caller gave it: an
   * absent property keeps its stored value, a given one takes the new value.
   */
  lemma UpdateTouchesOnlyGivenFields(p: Profile, updates: ProfileUpdates)
    ensures var q := UpdatedProfile(p, updates);
            && (updates.displayName.Absent? ==> q.displayName == p.displayName)
            && (updates.displayName.Given? ==> q.displayName == updates.displayName.value)
            && (updates.defaultSessionMinutes.Absent? ==> q.defaultSessionMinutes == p.defaultSessionMinutes)
            && (updates.defaultSessionMinutes.Given? ==> q.defaultSessionMinutes == updates.defaultSessionMinutes.value)
  {
  }

  /** An empty `updates` object changes nothing. */
  lemma EmptyUpdateIsIdentity(p: Profile)
    ensures UpdatedProfile(p, ProfileUpdates(Absent, Absent)) == p
  {
  }

  /** Upserting the same updates twice is the same as once, whether the first call created or updated. */
  lemma UpsertIsIdempotent(p: Profile, updates: ProfileUpdates)
    ensures UpdatedProfile(UpdatedProfile(p, updates), updates) == UpdatedProfile(p, updates)
    ensures UpdatedProfile(CreatedProfile(updates), updates) == CreatedProfile(updates)
  {
  }

  /** Two updates in a row are one update in which the later properties win. */
  lemma UpdatesCompose(p: Profile, first: ProfileUpdates, second: ProfileUpdates)
    ensures UpdatedProfile(UpdatedProfile(p, first), second) == UpdatedProfile(p, Then(first, second))
    ensures UpdatedProfile(CreatedProfile(first), second) == CreatedProfile(Then(first, second))
  {
  }

  /** The `profile` table: one row per user id. */
  class ProfileStore {
    var profiles: map<string, Profile>

    constructor ()
      ensures profiles == map[]
    {
      profiles := map[];
    }

    /** Creates the user's profile with defaults, or patches the existing one; other users are untouched. */
    method UpsertProfile(userId: string, updates: ProfileUpdates) returns (p: Profile)
      modifies this
      ensures old(userId !in profiles) ==> p == CreatedProfile(updates)
      ensures old(userId in profiles) ==> p == UpdatedProfile(old(profiles[userId]), updates)
      ensures profiles == old(profiles)[userId := p]
    {
      if userId in profiles {
        p := UpdatedProfile(profiles[userId], updates);
      } else {
        p := CreatedProfile(updates);
      }
      profiles := profiles[userId := p];
    }
  }
}
