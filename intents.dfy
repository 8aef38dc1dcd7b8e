/**
 * The commands the view model sends to the location service: an action
 * name plus typed extras, read back with a default when an extra is
 * missing or has another type.
 */
module Intents {
  import opened Wrappers
  import opened KotlinNumbers

  const ActionStart: string := "ACTION_START"
  const ActionStop: string := "ACTION_STOP"
  const ActionUpdateInterval: string := "ACTION_UPDATE_INTERVAL"

  const ExtraInterval: string := "EXTRA_INTERVAL"
  const ExtraUserId: string := "EXTRA_USER_ID"
  const ExtraExpiry: string := "EXTRA_EXPIRY"

  datatype Extra = StringExtra(s: string) | LongExtra(l: Long)

  /** `action` is absent for an intent that carries none. */
  datatype Intent = Intent(action: Option<string>, extras: map<string, Extra>)

  /** The string stored under `key`, or nothing. */
  function GetStringExtra(intent: Intent, key: string): Option<string>
  {
    if key in intent.extras && intent.extras[key].StringExtra? then Some(intent.extras[key].s) else None
  }

  /** The long stored under `key`, or `default`. */
  function GetLongExtra(intent: Intent, key: string, default: Long): Long
  {
    if key in intent.extras && intent.extras[key].LongExtra? then intent.extras[key].l else default
  }
}
