// The token array of a message and the server configuration learnt from 005.
module Message {
  import opened CStrings
  import opened CaseMap

  /** A tokarr: prefix (or NULL), command and up to 16 arguments.  In the source's terms
      (*msg)[0] is `prefix`, (*msg)[1] is `cmd`, (*msg)[2 + i] is `args[i]` and nargs is 2 + |args|. */
  datatype Msg = Msg(prefix: Option<string>, cmd: string, args: seq<string>)

  const MAX_ARGS := 16
  const MAX_NICK_LEN := 64
  const MAX_CHAN_LEN := 256
  const MAX_MODEPFX := 8

  /** casemap, m005modepfx[0] and [1], m005chantypes, m005chanmodes[0..4] */
  datatype Config = Config(cm: CaseMapping, letters: string, syms: string, chantypes: string,
                           classA: string, classB: string, classC: string, classD: string)
  {
    function Key(s: string): Key {
      Canon(cm, s)
    }
  }
}
