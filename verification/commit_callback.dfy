/**
 * commit_callback.py: a git-filter-repo commit callback that replaces the
 * message of each commit whose original id appears in a fixed table, and
 * leaves every other commit alone.
 */
module CommitRewrite {
  import opened Wrappers

  /**
   * A `bytes` value of git-filter-repo. Every id and message here is ASCII,
   * so one character stands for one byte.
   */
  type Bytes = string

  predicate EndsWithNewline(m: Bytes) {
    |m| > 0 && m[|m| - 1] == '\n'
  }

  /** `MAPPING`, from original commit id to replacement message, as the dict display writes it. */
  const MAPPING: map<Bytes, Bytes> := map[
    "9273c905d19e098aaac4e2c25dd8b4d9dd4ecabd" := "chore(branding): rebrand assets to Fitness Plus; update watermarks, captions, outro, configs, and references\n",
    "7f2155ecc0818886bb831ecc41adbdfd798733a8" := "chore(branding): standardize brand naming to professional terminology\n",
    "6568fe6ab8fac8e63b16ebfe8683cb2307590c03" := "feat(cleanup): implement retention to keep only the 3 most recent processed videos\n",
    "bedb17164fbae7ba33b4f19ee4b354fe33dbf93b" := "chore(cleanup): remove processed and temporary video files\n",
    "cde072b8d45b2a3cdbc2d8b4954f67cb20f5b984" := "feat(app): introduce web app for watermark processing; add .gitignore\n",
    "13cd61baba91c2012e1fda7839f3b101ead2c842" := "chore(repo): add main application file\n",
    "faeb18a1937998f7fd41ab276d5fb571e7024bd4" := "fix(server): address server startup/runtime issue\n",
    "b1c0cd159377f35ce194f7c8a7a0b37bc019abc6" := "refactor(server): update server module implementation\n",
    "9f68b7da7a7564d2052ec104ac79f0c19b62fe22" := "refactor(server): refine server module logic\n",
    "da6388e76ebfd96500ec4529a973bcde3be40ebf" := "fix(server): resolve recurring initialization issue\n",
    "3bb4392e32ff2ac2e4c3dcd99ba1f7bff84b7b9f" := "refactor(server): incremental server module improvements\n",
    "2471bd1b051a62c6e0a4ba3c9d119364adcef6bf" := "refactor(server): additional server module updates\n",
    "af638c7c3bacb90b9c7c9113d583a4c055373804" := "docs(readme): improve documentation and project overview\n",
    "44e767640cc193b29e6dd7debd63c64124901d50" := "docs(readme): update usage instructions\n",
    "ac33412edda3b05cc4d91574fe6ffbd442595ff9" := "chore(legal): add license file\n",
    "f2858571566eefa70be9d267c4841b599394853e" := "docs(readme): refine documentation\n",
    "66b0e5ad1167b4096aa559d10748d20f52968889" := "refactor(server): update server module\n",
    "47a55a5477a7427f7d5d0430666bd786c537541a" := "feat(video): add outro support\n",
    "b0a8d21723ab21f7d09f172e6e697786068b0020" := "chore(init): initial project files\n"
  ]

  /** Every replacement message in `MAPPING` ends with a newline byte. */
  lemma MappingMessagesEndWithNewline()
    ensures forall k :: k in MAPPING ==> EndsWithNewline(MAPPING[k])
  {
  }

  /** `MAPPING.get(originalId)`: the replacement message, or `None` for an id not in the table. */
  function Lookup(originalId: Bytes): (r: Option<Bytes>)
    ensures r.Some? <==> originalId in MAPPING
    ensures r.Some? ==> r.value == MAPPING[originalId]
  {
    if originalId in MAPPING then Some(MAPPING[originalId]) else None
  }

  /** The message a commit with `originalId` and `message` leaves the callback with. */
  function Rewritten(originalId: Bytes, message: Bytes): (r: Bytes)
    ensures originalId in MAPPING ==> r == MAPPING[originalId] && EndsWithNewline(r)
    ensures originalId !in MAPPING ==> r == message
  {
    MappingMessagesEndWithNewline();
    if originalId in MAPPING then MAPPING[originalId] else message
  }

  /** Running the callback a second time changes nothing more. */
  lemma RewriteIdempotent(originalId: Bytes, message: Bytes)
    ensures Rewritten(originalId, Rewritten(originalId, message)) == Rewritten(originalId, message)
  {
  }

  /** A git-filter-repo commit, with the fields the callback can see. */
  class Commit {
    var originalId: Bytes
    var message: Bytes
    var branch: Bytes
    var authorName: Bytes
    var authorEmail: Bytes
    var parents: seq<nat>

    constructor (originalId: Bytes, message: Bytes, branch: Bytes,
                 authorName: Bytes, authorEmail: Bytes, parents: seq<nat>)
      ensures this.originalId == originalId && this.message == message && this.branch == branch
      ensures this.authorName == authorName && this.authorEmail == authorEmail && this.parents == parents
    {
      this.originalId := originalId;
      this.message := message;
      this.branch := branch;
      this.authorName := authorName;
      this.authorEmail := authorEmail;
      this.parents := parents;
    }
  }

  /**
   * `commit_callback`: look the original id up in `MAPPING` and, when it is
   * there, overwrite the message with the table's one. Only `message` may
   * change.
   */
  method CommitCallback(commit: Commit)
    modifies commit`message
    ensures commit.originalId == old(commit.originalId)
    ensures commit.message == Rewritten(old(commit.originalId), old(commit.message))
  {
    var newMessage := Lookup(commit.originalId);
    if newMessage.Some? {
      commit.message := newMessage.value;
    }
  }
}
