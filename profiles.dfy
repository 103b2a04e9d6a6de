/** The records the SavedVariables reader produces (pkg/lua/parser.go): an
    addon profile, the active profile and profiles of one scope, and the
    database holding the account-wide section and one section per
    character. Go's maps of pointers become maps of values; a database
    always has its maps, so the source's "initialised, non-nil" guarantee
    holds by construction. */
module Profiles {
  import opened Common

  datatype Profile = Profile(
    name: string,
    scope: string,
    addons: map<string, bool>,
    autoDeps: bool,
    created: int64)

  /** The Global section of a database, or the section of one character. */
  datatype Section = Section(activeProfile: string, profiles: map<string, Profile>)

  datatype Database = Database(global: Section, chars: map<string, Section>)

  const AccountScope := "account"
  const CharacterScope := "character"

  const EmptySection := Section("", map[])

  /** What a database holds before anything is read into it. */
  const EmptyDatabase := Database(EmptySection, map[])
}
