/** The mute state a group's observers receive. A group is muted while it
    is being changed as a whole; silencing suppresses the notification
    that would otherwise follow unmuting.

  The state's truth value is taken to be its `isMuted` flag; the
  definition of `Mute_` is not part of this model.
 */
module Mutes {

  datatype MuteState = MuteState(isMuted: bool, isSilenced: bool)

  /** The default-constructed state. */
  const Unmuted: MuteState := MuteState(false, false)

  /** `if (muteState)`. */
  predicate IsTrue(m: MuteState) { m.isMuted }

  /** The condition both groups test before sending the pending
      notification: neither muted nor silenced. */
  predicate Releases(m: MuteState) { !m.isMuted && !m.isSilenced }
}
